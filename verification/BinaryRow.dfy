/** `mysac_decode_binary_row`: a pure parser of binary protocol rows (Binary Protocol Resultset Row), and the
    in-place decoder that refines it. */
module BinaryRow {
  import opened Bytes
  import opened Lcb
  import opened Result
  import TextRow

  type Value = Cell<seq<byte>>

  /** Bytes of the null bitmap of a row of `n` columns; the decoder copies it to a 16-byte array. */
  function BitmapLen(n: nat): nat { (n + 9) / 8 }

  const BITMAP_MAX := 16

  function Pow2(k: nat): (r: nat)
    ensures r > 0
  {
    if k == 0 then 1 else 2 * Pow2(k - 1)
  }

  /** Bit `k` of the bitmap, counting from the lowest bit of the first byte; column j has bit j + 2. */
  predicate BitAt(bitmap: seq<byte>, k: nat)
    requires k / 8 < |bitmap|
  {
    bitmap[k / 8] / Pow2(k % 8) % 2 == 1
  }

  /** `a & b` */
  function And(a: nat, b: nat): nat
  {
    if a == 0 || b == 0 then 0 else 2 * And(a / 2, b / 2) + (a % 2) * (b % 2)
  }

  /** Bytes a column of a fixed-size type takes, 0 for the others. */
  function Width(t: ColType): nat
  {
    match t
    case Tiny => 1
    case Short => 2
    case Int24 | Long | Float => 4
    case Decimal | NewDecimal | LongLong | Double => 8
    case _ => 0
  }

  /** The value in the bytes of a fixed-size column. */
  function Fixed<T>(t: ColType, x: seq<byte>): (c: Cell<T>)
    requires Width(t) > 0 && |x| == Width(t)
    ensures c.Small? || c.Big? || c.Ieee?
  {
    if t.Float? || t.Double? then Ieee(LE(x))
    else if Width(t) == 8 then Big(SLE(x))
    else Small(SLE(x))
  }

  predicate IsStamp(t: ColType) { t.Timestamp? || t.DateTime? || t.Date? }

  /** Bytes read from the value of a date or timestamp of length `len`, whatever that length is. */
  function StampReads(t: ColType, len: nat): (n: nat)
    requires IsStamp(t)
    ensures n == 4 || n == 7
  {
    if !t.Date? && len > 4 then 7 else 4
  }

  function Stamp<T>(x: seq<byte>): Cell<T>
    requires |x| == 4 || |x| == 7
  {
    Moment(if |x| == 7
           then Tm(LE(x[0..2]) - 1900, CharToInt(x[2]) - 1, CharToInt(x[3]), CharToInt(x[4]), CharToInt(x[5]), CharToInt(x[6]))
           else Tm(LE(x[0..2]) - 1900, CharToInt(x[2]) - 1, CharToInt(x[3]), 0, 0, 0))
  }

  /** Bytes read from the value of a time of length `len` over 0. */
  function ClockReads(len: nat): nat { if len > 8 then 12 else 8 }

  /** Seconds and microseconds of a time: a sign, days, hours, minutes, seconds, in 32-bit unsigned arithmetic. */
  function Clock<T>(x: seq<byte>): Cell<T>
    requires |x| == 8 || |x| == 12
  {
    var v := (LE(x[1..5]) * 86400 + CharToInt(x[5]) * 3600 + CharToInt(x[6]) * 60 + CharToInt(x[7])) % TWO32;
    Interval(if x[0] != 0 then -v else v, if |x| == 12 then LE(x[8..12]) else 0)
  }

  /** Columns whose value begins with its length. */
  predicate IsCounted(t: ColType) { IsText(t) || IsStamp(t) || t.Time? }

  /** The cell at offset `i` and the offset behind it; a time of length 0 leaves the cell alone. Unmodelled: reads past the
      packet, a null length in front of a date, and a length with which `i + len` leaves 64 bits. */
  function ParseCell(t: ColType, p: seq<byte>, i: nat): (r: Decoded<(Value, int)>)
    requires i <= |p|
    ensures r.Good? ==> i <= r.value.1 <= |p|
    ensures r.Good? && r.value.0.Text? ==> i + |r.value.0.text| < r.value.1
  {
    if Width(t) > 0 then
      if i + Width(t) > |p| then Bad(BINFIELD_CORRUPT)
      else Good((Fixed(t, p[i..i + Width(t)]), i + Width(t)))
    else if t.Year? then
      if i + 2 > |p| then Unmodelled
      else Good((YearCell(p[i..i + 2]), i + 2))
    else if IsCounted(t) then
      match MyLcb(p[i..])
      case BadLcb => Bad(BINFIELD_CORRUPT)
      case Lcb(len, isNull, used) =>
        var at := i + used;
        if at + len >= TWO64 then Unmodelled
        else if at + len > |p| then Bad(BINFIELD_CORRUPT)
        else if IsText(t) then
          if isNull then Good((Null, at)) else Good((Text(p[at..at + len]), at + len))
        else if t.Time? then
          if isNull then Good((Null, at))
          else if len == 0 then Good((Initial(t), at))
          else if at + ClockReads(len) > |p| then Unmodelled
          else Good((Clock(p[at..at + ClockReads(len)]), at + len))
        else if isNull || at + StampReads(t, len) > |p| then Unmodelled
        else Good((Stamp(p[at..at + StampReads(t, len)]), at + len))
    else Good((Initial(t), i))
  }

  /** The cells from column |done| and offset `i` on. A column whose null bit is set takes no bytes, and its cell is
      left as it was. */
  function ParseCells(types: seq<ColType>, p: seq<byte>, i: nat, done: seq<Value>): Decoded<seq<Value>>
    requires i <= |p| && |done| <= |types| && 1 + BitmapLen(|types|) <= |p|
    decreases |types| - |done|
  {
    var j := |done|;
    if j == |types| then Good(done)
    else if BitAt(p[1..1 + BitmapLen(|types|)], j + 2) then ParseCells(types, p, i, done + [Initial(types[j])])
    else
      match ParseCell(types[j], p, i)
      case Bad(code) => Bad(code)
      case Unmodelled => Unmodelled
      case Good((v, next)) => ParseCells(types, p, next, done + [v])
  }

  /** The cells of a row packet; beyond 126 columns the bitmap does not fit the decoder's copy of it. */
  function ParseRow(types: seq<ColType>, p: seq<byte>): Decoded<seq<Value>>
  {
    var n := BitmapLen(|types|);
    if 1 + n > |p| then Bad(BINFIELD_CORRUPT)
    else if n > BITMAP_MAX then Unmodelled
    else ParseCells(types, p, 1 + n, [])
  }

  /** Invariant of the column loop; as for text rows, but the write pointer stays strictly behind the read offset. */
  ghost predicate Decoding(mem: seq<byte>, at: nat, p: seq<byte>, types: seq<ColType>,
                           cells: seq<Cell<Slice>>, i: nat, wh: nat)
  {
    && wh <= i <= |p| && at + |p| <= |mem| && |cells| <= |types| && 1 + BitmapLen(|types|) <= |p|
    && mem[at + i..at + |p|] == p[i..]
    && Packed(cells, at, at + wh) && Terminated(mem, cells)
    && ParseCells(types, p, i, LoadAll(mem, cells)) == ParseRow(types, p)
  }

  lemma DecodingStable(mem: seq<byte>, mem': seq<byte>, at: nat, p: seq<byte>, types: seq<ColType>,
                       cells: seq<Cell<Slice>>, i: nat, wh: nat)
    requires Decoding(mem, at, p, types, cells, i, wh)
    requires |mem'| == |mem| && Agree(mem, mem', at, at + wh) && Agree(mem, mem', at + i, at + |p|)
    ensures Decoding(mem', at, p, types, cells, i, wh)
  {
    hide ParseCell, ParseCells, ParseRow;
    LoadStable(mem, mem', cells, at, at + wh);
    AgreeSlice(mem, mem', at + i, at + |p|);
  }

  lemma DecodingStep(mem: seq<byte>, mem': seq<byte>, at: nat, p: seq<byte>, types: seq<ColType>,
                     cells: seq<Cell<Slice>>, i: nat, wh: nat, c: Cell<Slice>, i': nat, wh': nat)
    requires Decoding(mem, at, p, types, cells, i, wh) && |cells| < |types| && |mem'| == |mem|
    requires i <= i' <= |p| && wh <= wh' <= i'
    requires Agree(mem, mem', at, at + wh) && Agree(mem, mem', at + i', at + |p|)
    requires c.Text? ==> Within(c.text, at + wh, at + wh') && mem'[c.text.at + c.text.len] == 0
    requires ParseCells(types, p, i, LoadAll(mem, cells))
          == ParseCells(types, p, i', LoadAll(mem, cells) + [Load(mem', c)])
    ensures Decoding(mem', at, p, types, cells + [c], i', wh')
  {
    hide ParseCell, ParseCells, ParseRow;
    LoadStable(mem, mem', cells, at, at + wh);
    TextRow.LoadAllSnoc(mem', cells, c);
    TextRow.PackedSnoc(cells, c, at, at + wh, at + wh');
    AgreeSlice(mem, mem', at + i', at + |p|);
    SubSlice(mem, at + i, at + |p|, i' - i, |p| - i);
  }

  /** Parsing on takes one column off. */
  lemma NextColumn(types: seq<ColType>, p: seq<byte>, i: nat, vs: seq<Value>)
    requires i <= |p| && |vs| < |types| && 1 + BitmapLen(|types|) <= |p|
    requires !ParseCells(types, p, i, vs).Unmodelled?
    ensures var r := ParseCells(types, p, i, vs);
            if BitAt(p[1..1 + BitmapLen(|types|)], |vs| + 2) then r == ParseCells(types, p, i, vs + [Initial(types[|vs|])])
            else match ParseCell(types[|vs|], p, i)
                 case Bad(code) => r == Bad(code)
                 case Good((v, next)) => r == ParseCells(types, p, next, vs + [v])
                 case Unmodelled => false
  {
    hide ParseCell, BitAt;
  }

  lemma RowEnd(mem: seq<byte>, at: nat, p: seq<byte>, types: seq<ColType>, cells: seq<Cell<Slice>>, i: nat, wh: nat)
    requires Decoding(mem, at, p, types, cells, i, wh) && |cells| == |types|
    ensures wh <= |p| && Packed(cells, at, at + wh) && Terminated(mem, cells)
    ensures ParseRow(types, p) == Good(LoadAll(mem, cells))
  {
    hide ParseCell;
  }

  lemma Bounds(mem: seq<byte>, at: nat, p: seq<byte>, types: seq<ColType>, cells: seq<Cell<Slice>>, i: nat, wh: nat)
    requires Decoding(mem, at, p, types, cells, i, wh)
    ensures wh <= i <= |p| && at + |p| <= |mem| && |cells| <= |types| && 1 + BitmapLen(|types|) <= |p|
  {}

  /** The unread part of the packet, byte by byte. */
  lemma Unread(mem: seq<byte>, at: nat, p: seq<byte>, i: nat, a: nat, b: nat)
    requires i <= a <= b <= |p| && at + |p| <= |mem| && mem[at + i..at + |p|] == p[i..]
    ensures mem[at + a..at + b] == p[a..b]
  {
    forall k | a <= k < b ensures mem[at + k] == p[k] {
      assert mem[at + i..at + |p|][k - i] == p[i..][k - i];
    }
  }

  /** How a column that begins with a length is parsed. */
  lemma CountedCell(t: ColType, p: seq<byte>, i: nat)
    requires i <= |p| && IsCounted(t) && !ParseCell(t, p, i).Unmodelled?
    ensures var r := ParseCell(t, p, i);
            match MyLcb(p[i..])
            case BadLcb => r == Bad(BINFIELD_CORRUPT)
            case Lcb(len, isNull, used) =>
              var at := i + used;
              && at + len < TWO64
              && (at + len > |p| ==> r == Bad(BINFIELD_CORRUPT))
              && (at + len <= |p| && IsText(t) && isNull ==> r == Good((Null, at as int)))
              && (at + len <= |p| && IsText(t) && !isNull ==> r == Good((Text(p[at..at + len]), at + len)))
              && (at + len <= |p| && IsStamp(t) ==>
                    !IsText(t) && at + StampReads(t, len) <= |p|
                    && r == Good((Stamp(p[at..at + StampReads(t, len)]), at + len)))
              && (at + len <= |p| && t.Time? && isNull ==> r == Good((Null, at as int)))
              && (at + len <= |p| && t.Time? && !isNull && len == 0 ==> r == Good((Initial(t), at as int)))
              && (at + len <= |p| && t.Time? && len > 0 ==>
                    at + ClockReads(len) <= |p| && r == Good((Clock(p[at..at + ClockReads(len)]), at + len)))
  {
    hide Stamp, Clock, Fixed;
  }

  /** How the other columns are parsed. */
  lemma PlainCell(t: ColType, p: seq<byte>, i: nat)
    requires i <= |p| && !IsCounted(t) && !ParseCell(t, p, i).Unmodelled?
    ensures var r := ParseCell(t, p, i);
            var w := Width(t);
            if w > 0 then if i + w > |p| then r == Bad(BINFIELD_CORRUPT) else r == Good((Fixed(t, p[i..i + w]), i + w))
            else if t.Year? then i + 2 <= |p| && r == Good((YearCell(p[i..i + 2]), i + 2))
            else r == Good((Initial(t), i as int))
  {
    hide Fixed;
  }

  function YearCell<T>(x: seq<byte>): Cell<T>
  {
    Moment(Tm(LE(x) - 1900, 0, 1, 0, 0, 0))
  }

  /** Cells without bytes mean the same in the arena and outside. */
  lemma PlainAlike(mem: seq<byte>, t: ColType, x: seq<byte>)
    ensures Width(t) > 0 && |x| == Width(t) ==> Load(mem, Fixed(t, x)) == Fixed(t, x)
    ensures Load(mem, YearCell(x)) == YearCell(x)
    ensures Load(mem, Initial(t)) == Initial(t)
  {
    hide LE, SLE;
  }

  /** What decoding one cell at offset `i` of packet `p` achieves. */
  ghost predicate CellDecoded(was: seq<byte>, now: seq<byte>, at: nat, p: seq<byte>, i: nat, wh: nat, t: ColType,
                              r: Decoded<Cell<Slice>>, i': nat, wh': nat)
    requires i <= |p|
  {
    match ParseCell(t, p, i)
    case Good((v, next)) =>
      && r.Good? && i' == next && wh <= wh' <= next && |now| == |was| && at + next <= |now|
      && (r.value.Text? ==> Within(r.value.text, at + wh, at + wh') && now[r.value.text.at + r.value.text.len] == 0)
      && Load(now, r.value) == v
      && forall k :: 0 <= k < |now| && !(at + wh <= k < at + next) ==> now[k] == was[k]
    case Bad(code) => r == Bad(code)
    case Unmodelled => false
  }

  /** Decodes the cell at offset `i` of the packet at `at`, in a column of type `t`; kept bytes go to `wh`. */
  method DecodeCell(buf: array<byte>, at: nat, packetLen: nat, i: nat, wh: nat, t: ColType, cell: Cell<Slice>,
                    ghost p: seq<byte>)
      returns (r: Decoded<Cell<Slice>>, i': nat, wh': nat)
    requires |p| == packetLen && wh <= i <= packetLen && at + packetLen <= buf.Length
    requires buf[at + i..at + packetLen] == p[i..] && cell == Initial(t) && !ParseCell(t, p, i).Unmodelled?
    modifies buf
    ensures CellDecoded(old(buf[..]), buf[..], at, p, i, wh, t, r, i', wh')
  {
    hide LE, Fixed, ParseCell;
    if IsCounted(t) {
      r, i', wh' := DecodeCounted(buf, at, packetLen, i, wh, t, cell, p);
      return;
    }
    i', wh' := i, wh;
    ghost var mem := buf[..];
    assert mem[at + i..at + packetLen] == p[i..];
    PlainCell(t, p, i);
    var w := if t.Year? then 2 else Width(t);
    if !t.Year? && i > packetLen - w {
      return Bad(BINFIELD_CORRUPT), i', wh';
    }
    Unread(mem, at, p, i, i, i + w);
    PlainAlike(mem, t, p[i..i + w]);
    var x := buf[at + i..at + i + w];
    assert x == mem[at + i..at + i + w];
    r := Good(if t.Year? then YearCell(x) else if w > 0 then Fixed(t, x) else cell);
    i' := i + w;
  }

  /** The columns that begin with a length. */
  method DecodeCounted(buf: array<byte>, at: nat, packetLen: nat, i: nat, wh: nat, t: ColType, cell: Cell<Slice>,
                       ghost p: seq<byte>)
      returns (r: Decoded<Cell<Slice>>, i': nat, wh': nat)
    requires |p| == packetLen && wh <= i <= packetLen && at + packetLen <= buf.Length && IsCounted(t)
    requires buf[at + i..at + packetLen] == p[i..] && cell == Initial(t) && !ParseCell(t, p, i).Unmodelled?
    modifies buf
    ensures CellDecoded(old(buf[..]), buf[..], at, p, i, wh, t, r, i', wh')
  {
    hide MyLcb, Stamp, Clock, ParseCell, CellDecoded, IsText, IsStamp, StampReads, ClockReads;
    i', wh' := i, wh;
    ghost var mem := buf[..];
    assert buf[at + i..at + packetLen] == mem[at + i..at + packetLen] == p[i..];
    CountedCell(t, p, i);
    match MyLcb(buf[at + i..at + packetLen])
    case BadLcb =>
      r := Bad(BINFIELD_CORRUPT);
      PlainDecoded(mem, at, p, i, wh, t, r, i');
    case Lcb(len, isNull, used) =>
      i' := i + used;
      if (i' + len) % TWO64 > packetLen {
        r := Bad(BINFIELD_CORRUPT);
        PlainDecoded(mem, at, p, i, wh, t, r, i');
      } else if (IsText(t) || t.Time?) && isNull {
        r := Good(Null);
        PlainDecoded(mem, at, p, i, wh, t, r, i');
      } else if IsText(t) {
        r, wh' := TakeText(buf, at, packetLen, i, wh, t, i', len, p);
        i' := i' + len;
      } else if t.Time? {
        r := ReadClock(buf, at, packetLen, i, i', len, cell, p);
        i' := i' + len;
        PlainDecoded(mem, at, p, i, wh, t, r, i');
      } else {
        r := ReadStamp(buf, at, packetLen, i, i', StampReads(t, len), p);
        i' := i' + len;
        PlainDecoded(mem, at, p, i, wh, t, r, i');
      }
  }

  /** The `len` bytes at offset `src` are kept. */
  method TakeText(buf: array<byte>, at: nat, packetLen: nat, ghost i: nat, wh: nat, ghost t: ColType, src: nat, len: nat,
                  ghost p: seq<byte>)
      returns (r: Decoded<Cell<Slice>>, wh': nat)
    requires |p| == packetLen && wh <= i < src && src + len <= packetLen && at + packetLen <= buf.Length
    requires buf[at + i..at + packetLen] == p[i..] && ParseCell(t, p, i) == Good((Text(p[src..src + len]), src + len))
    modifies buf
    ensures CellDecoded(old(buf[..]), buf[..], at, p, i, wh, t, r, src + len, wh')
  {
    hide ParseCell, CellDecoded;
    ghost var mem := buf[..];
    assert mem[at + i..at + packetLen] == buf[at + i..at + packetLen];
    Unread(mem, at, p, i, src, src + len);
    var s := TextRow.KeepText(buf, at + wh, at + src, len);
    r, wh' := Good(Text(s)), wh + len + 1;
    assert buf[..][s.at..s.at + s.len] == buf[s.at..s.at + s.len];
    TextDecoded(mem, buf[..], at, p, i, wh, t, s, src);
  }

  /** A cell without bytes, or an error. */
  lemma PlainDecoded(mem: seq<byte>, at: nat, p: seq<byte>, i: nat, wh: nat, t: ColType, r: Decoded<Cell<Slice>>, i': nat)
    requires wh <= i <= |p| && at + |p| <= |mem|
    requires match r
             case Good(c) => !c.Text? && ParseCell(t, p, i) == Good((Load(mem, c), i' as int))
             case Bad(code) => ParseCell(t, p, i) == Bad(code)
             case Unmodelled => false
    ensures CellDecoded(mem, mem, at, p, i, wh, t, r, i', wh)
  {
    hide ParseCell;
  }

  lemma TextDecoded(was: seq<byte>, now: seq<byte>, at: nat, p: seq<byte>, i: nat, wh: nat, t: ColType, s: Slice, src: nat)
    requires wh <= i < src && src + s.len <= |p| && at + |p| <= |was| == |now| && s.at == at + wh
    requires was[at + src..at + src + s.len] == p[src..src + s.len]
    requires now[s.at..s.at + s.len] == was[at + src..at + src + s.len] && now[s.at + s.len] == 0
    requires forall k :: 0 <= k < |now| && !(s.at <= k <= s.at + s.len) ==> now[k] == was[k]
    requires ParseCell(t, p, i) == Good((Text(p[src..src + s.len]), src + s.len))
    ensures CellDecoded(was, now, at, p, i, wh, t, Good(Text(s)), src + s.len, wh + s.len + 1)
  {
    hide ParseCell;
  }

  /** The date or timestamp in the `n` bytes at offset `src`, whatever length was announced. */
  method ReadStamp(buf: array<byte>, at: nat, packetLen: nat, ghost i: nat, src: nat, n: nat, ghost p: seq<byte>)
      returns (r: Decoded<Cell<Slice>>)
    requires |p| == packetLen && i <= src && src + n <= packetLen && at + packetLen <= buf.Length && (n == 4 || n == 7)
    requires buf[at + i..at + packetLen] == p[i..]
    ensures r.Good? && !r.value.Text? && Load(buf[..], r.value) == Stamp(p[src..src + n])
  {
    hide Stamp, LE;
    ghost var mem := buf[..];
    assert buf[at + i..at + packetLen] == mem[at + i..at + packetLen];
    Unread(mem, at, p, i, src, src + n);
    var x := buf[at + src..at + src + n];
    assert x == mem[at + src..at + src + n];
    StampAlike(mem, x);
    r := Good(Stamp(x));
  }

  /** The time at offset `src`. */
  method ReadClock(buf: array<byte>, at: nat, packetLen: nat, ghost i: nat, src: nat, len: nat, cell: Cell<Slice>,
                   ghost p: seq<byte>)
      returns (r: Decoded<Cell<Slice>>)
    requires |p| == packetLen && i <= src <= packetLen && at + packetLen <= buf.Length && cell == Initial(Time)
    requires len > 0 ==> src + ClockReads(len) <= packetLen
    requires buf[at + i..at + packetLen] == p[i..]
    ensures r.Good? && !r.value.Text?
    ensures Load(buf[..], r.value) == if len > 0 then Clock(p[src..src + ClockReads(len)]) else Initial(Time)
  {
    hide Clock;
    if len == 0 {
      return Good(cell);
    }
    var n := ClockReads(len);
    ghost var mem := buf[..];
    assert buf[at + i..at + packetLen] == mem[at + i..at + packetLen];
    Unread(mem, at, p, i, src, src + n);
    var x := buf[at + src..at + src + n];
    assert x == mem[at + src..at + src + n];
    ClockAlike(mem, x);
    r := Good(Clock(x));
  }

  lemma ClockAlike(mem: seq<byte>, x: seq<byte>)
    requires |x| == 8 || |x| == 12
    ensures var c: Cell<Slice> := Clock(x); !c.Text? && Load(mem, c) == Clock(x)
  {
    hide LE;
  }

  lemma StampAlike(mem: seq<byte>, x: seq<byte>)
    requires |x| == 4 || |x| == 7
    ensures var c: Cell<Slice> := Stamp(x); !c.Text? && Load(mem, c) == Stamp(x)
  {
    hide LE;
  }

  /** `*null_ptr & bit` */
  function Masked(bitmap: seq<byte>, byteAt: nat, bit: byte): nat
    requires byteAt < |bitmap|
  {
    And(bitmap[byteAt], bit)
  }

  /** The next place in the null bitmap: the mask is shifted, and where it drops out of eight bits the next byte begins. */
  function Onward(byteAt: nat, bit: byte): (nat, byte)
  {
    if bit * 2 % 256 == 0 then (byteAt + 1, 1) else (byteAt, bit * 2 % 256)
  }

  /** The byte and the mask with which the decoder tests column `j`. */
  function Walk(j: nat): (nat, byte)
  {
    if j == 0 then (0, 4) else Onward(Walk(j - 1).0, Walk(j - 1).1)
  }

  /** The mask is that of the bit, and the byte the one it is in. */
  lemma {:induction false} WalkAt(j: nat)
    ensures Walk(j) == ((j + 2) / 8, Pow2((j + 2) % 8))
  {
    hide Pow2;
    if j == 0 {
      MaskOn(0);
      MaskOn(1);
    } else {
      WalkAt(j - 1);
      WalkOn(j + 1);
    }
  }

  lemma WalkOn(k: nat)
    ensures Pow2(k % 8) < 256 && Onward(k / 8, Pow2(k % 8)) == ((k + 1) / 8, Pow2((k + 1) % 8))
  {
    hide Pow2;
    MaskOn(k % 8);
    if k % 8 == 7 {
      assert (k + 1) / 8 == k / 8 + 1 && (k + 1) % 8 == 0;
    } else {
      assert (k + 1) / 8 == k / 8 && (k + 1) % 8 == k % 8 + 1;
    }
  }

  /** The masks of one byte. */
  lemma MaskOn(k: nat)
    requires k < 8
    ensures 0 < Pow2(k) < 256 && Pow2(0) == 1
    ensures if k == 7 then Pow2(k) * 2 % 256 == 0 else 0 < Pow2(k) * 2 < 256 && Pow2(k + 1) == Pow2(k) * 2
  {
    assert Pow2(1) == 2 && Pow2(2) == 4 && Pow2(3) == 8;
    assert Pow2(4) == 16;
    assert Pow2(5) == 32 && Pow2(6) == 64;
    assert Pow2(7) == 128;
  }

  lemma {:induction false} AndPow2(b: nat, k: nat)
    ensures And(b, Pow2(k)) == if b / Pow2(k) % 2 == 1 then Pow2(k) else 0
  {
    if k > 0 {
      AndPow2(b / 2, k - 1);
      Halves(b, Pow2(k - 1));
    } else if b > 0 {
      assert And(b / 2, 0) == 0;
    }
  }

  lemma Halves(b: nat, p: nat)
    requires p > 0
    ensures b / (2 * p) == b / 2 / p
  {
    var q, r := b / (2 * p), b % (2 * p);
    assert b == 2 * (p * q) + r;
    assert b / 2 == p * q + r / 2;
    DivModUnique(b / 2, p, q, r / 2);
  }

  lemma WalkStarts()
    ensures Walk(0) == (0, 4)
  {}

  lemma WalkNext(j: nat)
    ensures Walk(j + 1) == Onward(Walk(j).0, Walk(j).1)
  {}

  /** The test of the decoder: `*null_ptr & bit` is not zero for column `j` exactly when its bit of the bitmap is set. */
  lemma WalkTest(bitmap: seq<byte>, j: nat)
    requires (j + 2) / 8 < |bitmap|
    ensures Walk(j).0 < |bitmap| && (Masked(bitmap, Walk(j).0, Walk(j).1) != 0 <==> BitAt(bitmap, j + 2))
  {
    hide Pow2;
    WalkAt(j);
    AndPow2(bitmap[(j + 2) / 8], (j + 2) % 8);
  }

  lemma DecodingStart(mem: seq<byte>, at: nat, p: seq<byte>, types: seq<ColType>)
    requires at + |p| <= |mem| && mem[at..at + |p|] == p && 1 + BitmapLen(|types|) <= |p| && BitmapLen(|types|) <= BITMAP_MAX
    ensures Decoding(mem, at, p, types, [], 1 + BitmapLen(|types|), 0)
  {
    assert LoadAll(mem, []) == [];
    SubSlice(mem, at, at + |p|, 1 + BitmapLen(|types|), |p|);
  }

  /** A column whose null bit is set. */
  lemma NullColumn(mem: seq<byte>, at: nat, p: seq<byte>, types: seq<ColType>, before: seq<Cell<Slice>>, i: nat, wh: nat,
                   cell: Cell<Slice>)
    requires Decoding(mem, at, p, types, before, i, wh) && |before| < |types| && !ParseRow(types, p).Unmodelled?
    requires BitAt(p[1..1 + BitmapLen(|types|)], |before| + 2) && cell == Initial(types[|before|])
    ensures Decoding(mem, at, p, types, before + [cell], i, wh)
  {
    hide ParseCell, ParseCells, ParseRow, BitAt;
    NextColumn(types, p, i, LoadAll(mem, before));
    PlainAlike(mem, types[|before|], []);
    DecodingStep(mem, mem, at, p, types, before, i, wh, cell, i, wh);
  }

  /** One pass of the column loop for a column that is not null. */
  method DecodeColumn(buf: array<byte>, at: nat, packetLen: nat, types: seq<ColType>, j: nat,
                      ghost before: seq<Cell<Slice>>, cell: Cell<Slice>, i: nat, wh: nat, ghost p: seq<byte>)
      returns (r: Decoded<Cell<Slice>>, i': nat, wh': nat)
    requires packetLen == |p| && j == |before| < |types| && cell == Initial(types[j])
    requires Decoding(buf[..], at, p, types, before, i, wh) && !ParseRow(types, p).Unmodelled?
    requires !BitAt(p[1..1 + BitmapLen(|types|)], j + 2)
    modifies buf
    ensures match r
            case Good(c) =>
              && Decoding(buf[..], at, p, types, before + [c], i', wh')
              && forall k :: 0 <= k < buf.Length && !(at <= k < at + packetLen) ==> buf[k] == old(buf[k])
            case Bad(code) => ParseRow(types, p) == Bad(BINFIELD_CORRUPT)
            case Unmodelled => false
  {
    hide ParseCell, ParseCells, ParseRow, BitAt;
    ghost var mem := buf[..];
    NextColumn(types, p, i, LoadAll(mem, before));
    CellErrors(types[j], p, i);
    assert buf[at + i..at + packetLen] == mem[at + i..at + packetLen];
    r, i', wh' := DecodeCell(buf, at, packetLen, i, wh, types[j], cell, p);
    if r.Good? {
      DecodingStep(mem, buf[..], at, p, types, before, i, wh, r.value, i', wh');
    }
  }

  /** `mysac_decode_binary_row` on the packet of `packetLen` bytes at `at`, for the row `row` whose tables occupy
      `[lo, hi)`: the number of bytes its strings keep, or -1. */
  method DecodeBinaryRow(buf: array<byte>, at: nat, packetLen: nat, types: seq<ColType>,
                         row: seq<Cell<Slice>>, lo: nat, hi: nat)
      returns (ret: int, cells: seq<Cell<Slice>>)
    requires lo <= hi <= at && at + packetLen <= buf.Length
    requires |row| == |types| && forall j :: 0 <= j < |types| ==> row[j] == Initial(types[j])
    requires !ParseRow(types, buf[at..at + packetLen]).Unmodelled?
    modifies buf
    ensures match ParseRow(types, old(buf[at..at + packetLen]))
            case Good(vs) =>
              && 0 <= ret <= packetLen && |cells| == |types|
              && Packed(cells, at, at + ret) && Terminated(buf[..], cells) && LoadAll(buf[..], cells) == vs
              && forall k :: 0 <= k < buf.Length && !(at <= k < at + packetLen) && !(lo <= k < hi) ==> buf[k] == old(buf[k])
            case Bad(code) => ret == -1 && code == BINFIELD_CORRUPT
            case Unmodelled => false
  {
    hide ParseCells, Pow2, Decoding, Walk, And, Masked, BitAt, LoadAll, Packed, Terminated;
    ghost var p := buf[at..at + packetLen];
    cells := row;
    var n := BitmapLen(|types|);
    if 1 + n > packetLen {
      return -1, cells;
    }
    var bitmap := buf[at + 1..at + 1 + n];
    ghost var mem := buf[..];
    assert p == mem[at..at + packetLen] && bitmap == mem[at + 1..at + 1 + n];
    SubSlice(mem, at, at + packetLen, 1, 1 + n);
    var i: nat, wh: nat := 1 + n, 0;
    var byteAt: nat, bit: byte := 0, 4;
    DecodingStart(buf[..], at, p, types);
    assert Walk(0) == (0, 4) by { WalkStarts(); }
    for j := 0 to |types|
      invariant |cells| == |types| && forall k :: j <= k < |types| ==> cells[k] == row[k]
      invariant Decoding(buf[..], at, p, types, cells[..j], i, wh)
      invariant Walk(j) == (byteAt, bit)
      invariant forall k :: 0 <= k < buf.Length && !(at <= k < at + packetLen) && !(lo <= k < hi) ==> buf[k] == old(buf[k])
    {
      ghost var before := cells[..j];
      WalkTest(bitmap, j);
      if Masked(bitmap, byteAt, bit) != 0 {
        NullColumn(buf[..], at, p, types, before, i, wh, cells[j]);
      } else {
        var r, i', wh' := DecodeColumn(buf, at, packetLen, types, j, before, cells[j], i, wh, p);
        if r.Bad? {
          return -1, cells;
        }
        cells, i, wh := cells[j := r.value], i', wh';
      }
      assert cells[..j + 1] == before + [cells[j]];
      mem := buf[..];
      Bounds(mem, at, p, types, cells[..j + 1], i, wh);
      Scribble(buf, lo, hi); // row->data[j] and row->lengths[j]
      DecodingStable(mem, buf[..], at, p, types, cells[..j + 1], i, wh);
      WalkNext(j);
      bit := bit * 2 % 256;
      if bit == 0 {
        bit, byteAt := 1, byteAt + 1;
      }
    }
    assert cells[..|types|] == cells;
    RowEnd(buf[..], at, p, types, cells, i, wh);
    ret := wh;
  }

  lemma CellErrors(t: ColType, p: seq<byte>, i: nat)
    requires i <= |p|
    ensures ParseCell(t, p, i).Bad? ==> ParseCell(t, p, i) == Bad(BINFIELD_CORRUPT)
  {}
}
