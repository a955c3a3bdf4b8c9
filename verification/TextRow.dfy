/** `mysac_decode_string_row`: a pure parser of text protocol rows, and the in-place decoder that refines it. */
module TextRow {
  import opened Bytes
  import opened Lcb
  import opened CText
  import opened Result

  type Value = Cell<seq<byte>>

  /** Where the numbers of a time, date or timestamp begin in its text. */
  function Starts(t: ColType): seq<nat>
  {
    if t.Time? then [0, 3, 6] else if t.Date? then [0, 5, 8] else [0, 5, 8, 11, 14, 17]
  }

  /** Where they end; the last end is the length of the text. */
  function Stops(t: ColType): seq<nat>
  {
    if t.Time? then [2, 5, 8] else if t.Date? then [4, 7, 10] else [4, 7, 10, 13, 16, 19]
  }

  predicate Separated(starts: seq<nat>, stops: seq<nat>, len: nat)
  {
    && |starts| == |stops| > 0 && stops[|stops| - 1] == len
    && (forall k :: 0 <= k < |stops| ==> starts[k] <= stops[k] <= len)
    && (forall j, k :: 0 <= j < k < |stops| ==> stops[j] < starts[k])
  }

  /** `strtol` on piece `k` of the text once its separators are overwritten with NUL. */
  function Piece(x: seq<byte>, starts: seq<nat>, stops: seq<nat>, k: nat): (int, nat)
    requires Separated(starts, stops, |x|) && k < |stops|
  {
    StrTol(UpToNul(x[starts[k]..stops[k]]))
  }

  /** Every piece is a number to its end. */
  predicate AllEnd(x: seq<byte>, starts: seq<nat>, stops: seq<nat>)
    requires Separated(starts, stops, |x|)
  {
    forall k :: 0 <= k < |stops| ==> Piece(x, starts, stops, k).1 == |UpToNul(x[starts[k]..stops[k]])|
  }

  function Pieces(x: seq<byte>, starts: seq<nat>, stops: seq<nat>): (ns: seq<int>)
    requires Separated(starts, stops, |x|)
    ensures |ns| == |stops|
  {
    seq(|stops|, k requires 0 <= k < |stops| => Piece(x, starts, stops, k).0)
  }

  /** The cell made of the numbers of a time, date or timestamp. */
  function Assemble<T>(t: ColType, ns: seq<int>): Cell<T>
    requires |ns| == |Stops(t)|
  {
    if t.Time? then Interval(ns[0] * 3600 + ns[1] * 60 + ns[2], 0)
    else if t.Date? then Moment(Tm(ns[0] - 1900, ns[1] - 1, ns[2], 0, 0, 0))
    else Moment(Tm(ns[0] - 1900, ns[1] - 1, ns[2], ns[3], ns[4], ns[5]))
  }

  /** The value of a text cell of a column of type `t`. */
  function ParseCell(t: ColType, x: seq<byte>): Decoded<Value>
  {
    if IsText(t) then Good(Text(x))
    else match t
      case Tiny | Short | Int24 | Long | Decimal | NewDecimal | LongLong | Float | Double =>
        ParseNumber(t, UpToNul(x))
      case Time | Timestamp | DateTime | Date | Year => ParseMoment(t, x)
      case _ => Good(Initial(t))
  }

  /** The time, date or year in the text `x`; a text of another length leaves the cell alone. */
  function ParseMoment<T>(t: ColType, x: seq<byte>): (r: Decoded<Cell<T>>)
    requires IsDated(t)
    ensures r.Good? ==> r.value.Interval? || r.value.Moment?
    ensures !r.Unmodelled? && (r.Bad? ==> r.code >= BINFIELD_CORRUPT)
  {
    if t.Year? then
      if |x| != 4 then Good(Initial(t))
      else Good(Moment(Tm(StrTol(UpToNul(x)).0 - 1900, 0, 1, 0, 0, 0)))
    else if |x| != Stops(t)[|Stops(t)| - 1] then Good(Initial(t))
    else if !AllEnd(x, Starts(t), Stops(t)) then Bad(MomentError(t))
    else Good(Assemble(t, Pieces(x, Starts(t), Stops(t))))
  }

  function MomentError(t: ColType): int
  {
    if t.Time? then CONVTIME else if t.Date? then CONVDATE else CONVTIMESTAMP
  }

  predicate IsNumber(t: ColType)
  {
    || t.Tiny? || t.Short? || t.Int24? || t.Long? || t.Decimal? || t.NewDecimal? || t.LongLong?
    || t.Float? || t.Double?
  }

  /** The number in the C string `c`, in the width of the column. */
  function ParseNumber<T>(t: ColType, c: seq<byte>): (r: Decoded<Cell<T>>)
    requires IsNumber(t)
    ensures r.Good? ==> r.value.Real? || r.value.Big? || r.value.Small?
    ensures !r.Unmodelled? && (r.Bad? ==> r.code >= BINFIELD_CORRUPT)
  {
    if t.Float? || t.Double? then
      var (v, n) := StrTod(c);
      if n < |c| then Bad(if t.Float? then CONVFLOAT else CONVDOUBLE) else Good(Real(v))
    else
      var (v, n) := StrTol(c);
      if n < |c| then Bad(CONVLONG)
      else if t.Decimal? || t.NewDecimal? || t.LongLong? then Good(Big(v))
      else Good(Small(Int32(v)))
  }

  /** The cells of packet `p` from column |done| and offset `i` on, behind the cells already `done`.
      Unmodelled: a length prefix with which `i + len` leaves 64 bits. */
  function ParseCells(types: seq<ColType>, p: seq<byte>, i: nat, done: seq<Value>): Decoded<seq<Value>>
    requires i <= |p| && |done| <= |types|
    decreases |types| - |done|
  {
    if |done| == |types| then Good(done)
    else
      match MyLcb(p[i..])
      case BadLcb => Bad(BAD_LCB)
      case Lcb(len, isNull, used) =>
        var at := i + used;
        if at + len >= TWO64 then Unmodelled
        else if at + len > |p| then Bad(LEN_OVER_BUFFER)
        else if isNull then ParseCells(types, p, at, done + [Null])
        else
          match ParseCell(types[|done|], p[at..at + len])
          case Bad(code) => Bad(code)
          case Unmodelled => Unmodelled
          case Good(v) => ParseCells(types, p, at + len, done + [v])
  }

  function ParseRow(types: seq<ColType>, p: seq<byte>): Decoded<seq<Value>>
  {
    ParseCells(types, p, 0, [])
  }

  /** `now` is `was` with a terminator at `to`, as far as the C string from `from` to there goes. */
  ghost predicate Cut(was: seq<byte>, now: seq<byte>, from: nat, to: nat)
  {
    to < |now| && now[to] == 0 && Agree(was, now, from, to)
  }

  lemma CutString(was: seq<byte>, now: seq<byte>, from: nat, to: nat)
    requires Cut(was, now, from, to)
    ensures UpToNul(now[from..]) == UpToNul(was[from..to])
  {
    AgreeSlice(was, now, from, to);
    UpToNulCut(now, from, to);
  }

  lemma Apart(starts: seq<nat>, stops: seq<nat>, len: nat, k: nat, m: nat)
    requires Separated(starts, stops, len) && k < |stops| && m < |stops|
    ensures stops[k] < starts[m] || stops[m] <= stops[k]
    ensures k != m ==> stops[k] != stops[m]
  {
    if m < k { assert stops[m] < starts[k]; } else if k < m { assert stops[k] < starts[m]; }
  }

  /** Overwrites the separators behind the pieces of a text, and the byte behind the text, with NUL. */
  method CutPieces(buf: array<byte>, at: nat, starts: seq<nat>, stops: seq<nat>, len: nat)
    requires at + len < buf.Length && Separated(starts, stops, len)
    modifies buf
    ensures forall k :: 0 <= k < buf.Length && !(at <= k <= at + len) ==> buf[k] == old(buf[k])
    ensures forall k :: 0 <= k < |stops| ==> Cut(old(buf[..]), buf[..], at + starts[k], at + stops[k])
  {
    for k := 0 to |stops|
      invariant forall j :: 0 <= j < buf.Length && !(at <= j <= at + len) ==> buf[j] == old(buf[j])
      invariant forall m :: k <= m < |stops| ==> Agree(old(buf[..]), buf[..], at + starts[m], at + stops[m])
      invariant forall m :: 0 <= m < k ==> Cut(old(buf[..]), buf[..], at + starts[m], at + stops[m])
    {
      forall m | 0 <= m < |stops| ensures stops[k] < starts[m] || stops[m] <= stops[k] {
        Apart(starts, stops, len, k, m);
      }
      buf[at + stops[k]] := 0;
    }
  }

  /** `strtol` on each piece in turn; stops at the first one that is not a number to its end. */
  method ScanPieces(buf: array<byte>, at: nat, starts: seq<nat>, ghost x: seq<byte>, ghost stops: seq<nat>)
      returns (ok: bool, ns: seq<int>)
    requires at + |x| < buf.Length && Separated(starts, stops, |x|)
    requires forall k :: 0 <= k < |stops| ==>
      UpToNul(buf[..][at + starts[k]..]) == UpToNul(x[starts[k]..stops[k]])
    ensures ok == AllEnd(x, starts, stops)
    ensures ok ==> ns == Pieces(x, starts, stops)
  {
    hide StrTol, UpToNul;
    ns := [];
    for k := 0 to |starts|
      invariant |ns| == k
      invariant forall j :: 0 <= j < k ==> Piece(x, starts, stops, j) == (ns[j], |UpToNul(x[starts[j]..stops[j]])|)
    {
      assert buf[at + starts[k]..] == buf[..][at + starts[k]..];
      var c := UpToNul(buf[at + starts[k]..]);
      var (v, n) := StrTol(c);
      if n < |c| {
        return false, [];
      }
      ns := ns + [v];
    }
    ok := true;
  }

  /** Converts the number in the `len` bytes at `at`, behind which a terminator stands meanwhile. */
  method ConvertNumber(buf: array<byte>, at: nat, len: nat, t: ColType) returns (r: Decoded<Cell<Slice>>)
    requires IsNumber(t) && at + len < buf.Length
    modifies buf
    ensures forall k :: 0 <= k < buf.Length && k != at + len ==> buf[k] == old(buf[k])
    ensures r.Good? ==> buf[at + len] == old(buf[at + len])
    ensures r == ParseNumber(t, UpToNul(old(buf[at..at + len])))
  {
    hide UpToNul, ParseNumber;
    ghost var x := buf[at..at + len];
    var mem := buf[at + len];
    buf[at + len] := 0;
    assert buf[..][at..at + len] == x;
    UpToNulCut(buf[..], at, at + len);
    assert buf[at..] == buf[..][at..];
    r := ParseNumber(t, UpToNul(buf[at..]));
    if r.Good? {
      buf[at + len] := mem;
    }
  }

  /** The numbers of a text whose separators stand at `stops`; its bytes and the one behind it are used up. */
  method ConvertPieces(buf: array<byte>, at: nat, len: nat, starts: seq<nat>, stops: seq<nat>)
      returns (ok: bool, ns: seq<int>)
    requires at + len < buf.Length && Separated(starts, stops, len)
    modifies buf
    ensures forall k :: 0 <= k < buf.Length && !(at <= k <= at + len) ==> buf[k] == old(buf[k])
    ensures ok == AllEnd(old(buf[at..at + len]), starts, stops)
    ensures ok ==> ns == Pieces(old(buf[at..at + len]), starts, stops)
  {
    hide UpToNul, StrTol, AllEnd, Pieces;
    ghost var x, was := buf[at..at + len], buf[..];
    CutPieces(buf, at, starts, stops, len);
    forall k | 0 <= k < |stops|
      ensures UpToNul(buf[..][at + starts[k]..]) == UpToNul(x[starts[k]..stops[k]])
    {
      CutString(was, buf[..], at + starts[k], at + stops[k]);
      SubSlice(was, at, at + len, starts[k], stops[k]);
      assert was[at..at + len] == x;
    }
    ok, ns := ScanPieces(buf, at, starts, x, stops);
  }

  /** Converts a time, date or timestamp, or a year. */
  method ConvertMoment(buf: array<byte>, at: nat, len: nat, t: ColType) returns (r: Decoded<Cell<Slice>>)
    requires IsDated(t) && at + len < buf.Length
    modifies buf
    ensures forall k :: 0 <= k < buf.Length && !(at <= k <= at + len) ==> buf[k] == old(buf[k])
    ensures r.Good? ==> buf[at + len] == old(buf[at + len])
    ensures r == ParseMoment(t, old(buf[at..at + len]))
  {
    hide UpToNul, StrTol, AllEnd, Pieces, Assemble;
    if t.Year? {
      if len != 4 {
        return Good(Initial(t));
      }
      var mem := buf[at + 4];
      ghost var was := buf[..];
      buf[at + 4] := 0;
      CutString(was, buf[..], at, at + 4);
      assert buf[at..] == buf[..][at..];
      r := Good(Moment(Tm(StrTol(UpToNul(buf[at..])).0 - 1900, 0, 1, 0, 0, 0)));
      buf[at + 4] := mem;
      return;
    }
    if len != Stops(t)[|Stops(t)| - 1] {
      return Good(Initial(t));
    }
    var mem := buf[at + len];
    var ok, ns := ConvertPieces(buf, at, len, Starts(t), Stops(t));
    if !ok {
      return Bad(MomentError(t));
    }
    r := Good(Assemble(t, ns));
    buf[at + len] := mem;
  }

  /** Keeps the `len` bytes at `src` as a terminated string at `dst`. */
  method KeepText(buf: array<byte>, dst: nat, src: nat, len: nat) returns (s: Slice)
    requires dst < src && src + len <= buf.Length
    modifies buf
    ensures s == Slice(dst, len) && buf[dst + len] == 0
    ensures buf[dst..dst + len] == old(buf[src..src + len])
    ensures forall k :: 0 <= k < buf.Length && !(dst <= k <= dst + len) ==> buf[k] == old(buf[k])
  {
    Memmove(buf, dst, src, len);
    buf[dst + len] := 0;
    s := Slice(dst, len);
  }

  lemma LoadAllSnoc(mem: seq<byte>, cells: seq<Cell<Slice>>, c: Cell<Slice>)
    requires Terminated(mem, cells)
    requires c.Text? ==> c.text.at + c.text.len < |mem| && mem[c.text.at + c.text.len] == 0
    ensures Terminated(mem, cells + [c]) && LoadAll(mem, cells + [c]) == LoadAll(mem, cells) + [Load(mem, c)]
  {}

  lemma PackedSnoc(cells: seq<Cell<Slice>>, c: Cell<Slice>, lo: nat, mid: nat, hi: nat)
    requires Packed(cells, lo, mid) && lo <= mid <= hi
    requires c.Text? ==> Within(c.text, mid, hi)
    ensures Packed(cells + [c], lo, hi)
  {}

  /** Invariant of the column loop: bytes from `i` on are still those of the packet, the cells before are stored
      behind `at`, strictly before them, and parsing on from here gives the row of the whole packet. */
  ghost predicate Decoding(mem: seq<byte>, at: nat, p: seq<byte>, types: seq<ColType>,
                           cells: seq<Cell<Slice>>, i: nat, wh: nat)
  {
    && wh <= i <= |p| && at + |p| < |mem| && |cells| <= |types|
    && mem[at + i..at + |p|] == p[i..]
    && Packed(cells, at, at + wh) && Terminated(mem, cells)
    && ParseCells(types, p, i, LoadAll(mem, cells)) == ParseRow(types, p)
  }

  lemma DecodingStart(mem: seq<byte>, at: nat, p: seq<byte>, types: seq<ColType>)
    requires at + |p| < |mem| && mem[at..at + |p|] == p
    ensures Decoding(mem, at, p, types, [], 0, 0)
  {
    assert LoadAll(mem, []) == [];
  }

  lemma DecodingEnd(mem: seq<byte>, at: nat, p: seq<byte>, types: seq<ColType>,
                    cells: seq<Cell<Slice>>, i: nat, wh: nat)
    requires Decoding(mem, at, p, types, cells, i, wh) && |cells| == |types|
    ensures ParseRow(types, p) == Good(LoadAll(mem, cells))
  {
    hide ParseCell;
  }

  /** Stores outside the strings and the unread bytes keep the invariant. */
  lemma DecodingStable(mem: seq<byte>, mem': seq<byte>, at: nat, p: seq<byte>, types: seq<ColType>,
                       cells: seq<Cell<Slice>>, i: nat, wh: nat)
    requires Decoding(mem, at, p, types, cells, i, wh)
    requires |mem'| == |mem| && Agree(mem, mem', at, at + wh) && Agree(mem, mem', at + i, at + |p|)
    ensures Decoding(mem', at, p, types, cells, i, wh)
  {
    hide ParseCell, ParseCells;
    LoadStable(mem, mem', cells, at, at + wh);
    AgreeSlice(mem, mem', at + i, at + |p|);
  }

  /** One more column: its bytes are used up, its cell `c` stands for `v`. */
  lemma DecodingStep(mem: seq<byte>, mem': seq<byte>, at: nat, p: seq<byte>, types: seq<ColType>,
                     cells: seq<Cell<Slice>>, i: nat, wh: nat, c: Cell<Slice>, i': nat, wh': nat)
    requires Decoding(mem, at, p, types, cells, i, wh) && |cells| < |types| && |mem'| == |mem|
    requires i <= i' <= |p| && wh <= wh' <= i'
    requires Agree(mem, mem', at, at + wh) && Agree(mem, mem', at + i', at + |p|)
    requires c.Text? ==> Within(c.text, at + wh, at + wh') && mem'[c.text.at + c.text.len] == 0
    requires ParseCells(types, p, i, LoadAll(mem, cells))
          == ParseCells(types, p, i', LoadAll(mem, cells) + [Load(mem', c)])
    ensures Decoding(mem', at, p, types, cells + [c], i', wh')
  {
    hide ParseCell, ParseCells;
    LoadStable(mem, mem', cells, at, at + wh);
    LoadAllSnoc(mem', cells, c);
    PackedSnoc(cells, c, at, at + wh, at + wh');
    AgreeSlice(mem, mem', at + i', at + |p|);
    assert mem[at + i'..at + |p|] == mem[at + i..at + |p|][i' - i..];
  }

  /** How each kind of cell converts. */
  lemma CellKinds(t: ColType, x: seq<byte>)
    ensures IsText(t) ==> ParseCell(t, x) == Good(Text(x))
    ensures IsNumber(t) ==> !IsText(t) && ParseCell(t, x) == ParseNumber(t, UpToNul(x))
    ensures IsDated(t) ==> !IsText(t) && !IsNumber(t) && ParseCell(t, x) == ParseMoment(t, x)
    ensures !IsText(t) && !IsNumber(t) && !IsDated(t) ==> ParseCell(t, x) == Good(Initial(t))
  {
    hide UpToNul, ParseNumber, ParseMoment;
  }

  /** A cell without bytes means the same in the arena and outside. */
  lemma NumberKinds(t: ColType, c: seq<byte>)
    requires IsNumber(t)
    ensures Alike(ParseNumber(t, c), ParseNumber(t, c))
  {
    hide StrTol, StrTod;
  }

  lemma MomentKinds(t: ColType, x: seq<byte>)
    requires IsDated(t)
    ensures Alike(ParseMoment(t, x), ParseMoment(t, x))
  {
    hide StrTol, UpToNul, AllEnd, Pieces, Stops, Starts;
  }

  ghost predicate Alike(r: Decoded<Cell<Slice>>, v: Decoded<Value>)
  {
    match r
    case Good(c) => !c.Text? && v == Good(Load([], c))
    case Bad(code) => v == Bad(code)
    case Unmodelled => false
  }

  /** Converts the `len` bytes at `i` for a column of type `t`; bytes that are kept go to `wh`. */
  method DecodeCell(buf: array<byte>, wh: nat, i: nat, len: nat, t: ColType, cell: Cell<Slice>)
      returns (r: Decoded<Cell<Slice>>, wh': nat)
    requires wh < i && i + len < buf.Length && cell == Initial(t)
    modifies buf
    ensures match ParseCell(t, old(buf[i..i + len]))
            case Good(v) =>
              && r.Good? && wh <= wh' <= i + len
              && (r.value.Text? ==> Within(r.value.text, wh, wh') && buf[r.value.text.at + r.value.text.len] == 0)
              && Load(buf[..], r.value) == v
              && forall k :: 0 <= k < buf.Length && !(wh <= k < i + len) ==> buf[k] == old(buf[k])
            case Bad(code) => r == Bad(code) && code >= BINFIELD_CORRUPT
            case Unmodelled => false
  {
    hide ParseCell, ParseNumber, ParseMoment, UpToNul;
    ghost var x := buf[i..i + len];
    CellKinds(t, x);
    wh' := wh;
    if IsText(t) {
      var s := KeepText(buf, wh, i, len);
      r := Good(Text(s));
      wh' := wh + len + 1;
      assert buf[..][wh..wh + len] == x;
    } else if IsNumber(t) {
      r := ConvertNumber(buf, i, len, t);
      NumberKinds(t, UpToNul(x));
    } else if IsDated(t) {
      r := ConvertMoment(buf, i, len, t);
      MomentKinds(t, x);
    } else {
      r := Good(cell);
    }
  }

  /** Parsing on from offset `i` takes one column off. */
  lemma NextColumn(types: seq<ColType>, p: seq<byte>, i: nat, vs: seq<Value>)
    requires i <= |p| && |vs| < |types| && !ParseCells(types, p, i, vs).Unmodelled?
    ensures var r := ParseCells(types, p, i, vs);
            match MyLcb(p[i..])
            case BadLcb => r == Bad(BAD_LCB)
            case Lcb(len, isNull, used) =>
              var at := i + used;
              && at + len < TWO64
              && (at + len > |p| ==> r == Bad(LEN_OVER_BUFFER))
              && (at + len <= |p| && isNull ==> r == ParseCells(types, p, at, vs + [Null]))
              && (at + len <= |p| && !isNull ==>
                    match ParseCell(types[|vs|], p[at..at + len])
                    case Bad(code) => r == Bad(code)
                    case Good(v) => r == ParseCells(types, p, at + len, vs + [v])
                    case Unmodelled => false)
  {
    hide ParseCell;
  }

  /** One pass of the column loop, at column `j`. */
  method DecodeColumn(buf: array<byte>, at: nat, packetLen: nat, types: seq<ColType>, j: nat, ghost before: seq<Cell<Slice>>,
                      cell: Cell<Slice>, i: nat, wh: nat, ghost p: seq<byte>)
      returns (r: Decoded<Cell<Slice>>, i': nat, wh': nat)
    requires packetLen == |p| && j == |before| < |types| && cell == Initial(types[j])
    requires Decoding(buf[..], at, p, types, before, i, wh) && !ParseRow(types, p).Unmodelled?
    modifies buf
    ensures match r
            case Good(c) =>
              && Decoding(buf[..], at, p, types, before + [c], i', wh')
              && forall k :: 0 <= k < buf.Length && !(at <= k < at + packetLen) ==> buf[k] == old(buf[k])
            case Bad(code) => ParseRow(types, p) == Bad(code) && code >= BINFIELD_CORRUPT
            case Unmodelled => false
  {
    hide ParseCell, ParseCells, ParseRow, MyLcb;
    ghost var mem := buf[..];
    ghost var vs := LoadAll(mem, before);
    NextColumn(types, p, i, vs);
    i', wh' := i, wh;
    assert buf[at + i..at + packetLen] == mem[at + i..at + |p|] == p[i..];
    match MyLcb(buf[at + i..at + packetLen])
    case BadLcb =>
      r := Bad(BAD_LCB);
    case Lcb(len, isNull, used) =>
      i' := i + used;
      if (i' + len) % TWO64 > packetLen {
        return Bad(LEN_OVER_BUFFER), i', wh';
      }
      if isNull {
        r := Good(Null);
        DecodingStep(mem, buf[..], at, p, types, before, i, wh, Null, i', wh');
        return;
      }
      SubSlice(mem, at + i, at + |p|, used, used + len);
      assert p[i..][used..used + len] == p[i'..i' + len];
      assert buf[at + i'..at + i' + len] == mem[at + i'..at + i' + len];
      var end;
      r, end := DecodeCell(buf, at + wh, at + i', len, types[j], cell);
      if r.Good? {
        i', wh' := i' + len, end - at;
        DecodingStep(mem, buf[..], at, p, types, before, i, wh, r.value, i', wh');
      }
  }

  /** `mysac_decode_string_row` on the packet of `packetLen` bytes at `at`, for the row `row` whose tables occupy
      `[lo, hi)`: the number of bytes its strings keep, or the negated error code. */
  method DecodeStringRow(buf: array<byte>, at: nat, packetLen: nat, types: seq<ColType>,
                         row: seq<Cell<Slice>>, lo: nat, hi: nat)
      returns (ret: int, cells: seq<Cell<Slice>>)
    requires lo <= hi <= at && at + packetLen < buf.Length
    requires |row| == |types| && forall j :: 0 <= j < |types| ==> row[j] == Initial(types[j])
    requires !ParseRow(types, buf[at..at + packetLen]).Unmodelled?
    modifies buf
    ensures match ParseRow(types, old(buf[at..at + packetLen]))
            case Good(vs) =>
              && 0 <= ret <= packetLen && |cells| == |types|
              && Packed(cells, at, at + ret) && Terminated(buf[..], cells) && LoadAll(buf[..], cells) == vs
              && forall k :: 0 <= k < buf.Length && !(at <= k < at + packetLen) && !(lo <= k < hi) ==> buf[k] == old(buf[k])
            case Bad(code) => ret == -code <= -BINFIELD_CORRUPT
            case Unmodelled => false
  {
    hide ParseCell, ParseCells;
    ghost var p := buf[at..at + packetLen];
    var i: nat, wh: nat := 0, 0;
    cells := row;
    DecodingStart(buf[..], at, p, types);
    for j := 0 to |types|
      invariant |cells| == |types| && forall k :: j <= k < |types| ==> cells[k] == row[k]
      invariant Decoding(buf[..], at, p, types, cells[..j], i, wh)
      invariant forall k :: 0 <= k < buf.Length && !(at <= k < at + packetLen) && !(lo <= k < hi) ==> buf[k] == old(buf[k])
    {
      var r, i', wh' := DecodeColumn(buf, at, packetLen, types, j, cells[..j], cells[j], i, wh, p);
      if r.Bad? {
        return -r.code, cells;
      }
      assert cells[j := r.value][..j + 1] == cells[..j] + [r.value];
      cells, i, wh := cells[j := r.value], i', wh';
      ghost var mem := buf[..];
      Scribble(buf, lo, hi); // row->data[j] and row->lengths[j]
      DecodingStable(mem, buf[..], at, p, types, cells[..j + 1], i, wh);
    }
    assert cells[..|types|] == cells;
    DecodingEnd(buf[..], at, p, types, cells, i, wh);
    ret := wh;
  }
}
