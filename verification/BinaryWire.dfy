/** The server's side of a binary row (Binary Protocol Resultset Row, Binary Protocol Value), and what the decoder makes of
    it. */
module BinaryWire {
  import opened Bytes
  import opened Lcb
  import opened Result
  import BinaryRow
  import Encode

  type Value = BinaryRow.Value

  /** A cell of a binary row. */
  datatype BinCell =
    | BinNull
    | BinInt(v: int)
    | BinBits(bits: nat) // a float or double, as its bits
    | BinText(x: seq<byte>)
    | BinYear(year: nat)
    | BinTime(minus: bool, days: nat, hour: byte, min: byte, sec: byte, usec: nat)
    | BinStamp(year: nat, mon: byte, mday: byte, hour: byte, min: byte, sec: byte, usec: nat)

  /** A date without time, or with one, or with one and microseconds. */
  function StampBytes(y: nat, mon: byte, mday: byte, h: byte, i: byte, s: byte, usec: nat): (r: seq<byte>)
  {
    if y == 0 && mon == 0 && mday == 0 && h == 0 && i == 0 && s == 0 && usec == 0 then [0]
    else if h == 0 && i == 0 && s == 0 && usec == 0 then [4] + ToLE(y, 2) + [mon, mday]
    else if usec == 0 then [7] + ToLE(y, 2) + [mon, mday, h, i, s]
    else [11] + ToLE(y, 2) + [mon, mday, h, i, s] + ToLE(usec, 4)
  }

  /** How many bytes an integer of that type has on the wire. */
  function IntWidth(t: ColType): nat
  {
    match t
    case Tiny => 1
    case Short => 2
    case LongLong => 8
    case _ => 4
  }

  /** What a server sends for a cell. */
  function ValueBytes(t: ColType, c: BinCell): seq<byte>
    requires InColumn(t, c)
  {
    match c
    case BinNull => []
    case BinInt(v) => ToLE(v, IntWidth(t))
    case BinBits(b) => ToLE(b, if t.Float? then 4 else 8)
    case BinText(x) => ServerLcb(|x|) + x
    case BinYear(y) => ToLE(y, 2)
    case BinTime(n, d, h, i, s, u) => Encode.ServerBytes(n, d, h, i, s, u)
    case BinStamp(y, o, d, h, i, s, u) => StampBytes(y, o, d, h, i, s, u)
  }

  /** The value belongs to the column, signed or UNSIGNED; a zero date is left out here. */
  predicate InColumn(t: ColType, c: BinCell)
  {
    match c
    case BinNull => true
    case BinInt(v) =>
      || (t.Tiny? && -0x80 <= v < 0x100)
      || (t.Short? && -0x8000 <= v < 0x1_0000)
      || ((t.Int24? || t.Long?) && -0x8000_0000 <= v < 0x1_0000_0000)
      || (t.LongLong? && -0x8000_0000_0000_0000 <= v < 0x1_0000_0000_0000_0000)
    case BinBits(b) => (t.Float? && b < TWO32) || (t.Double? && b < TWO64)
    case BinText(x) =>
      |x| < TWO24 && (t.VarChar? || t.VarString? || t.String? || t.TinyBlob? || t.MediumBlob? || t.LongBlob? || t.Blob? || t.Bit?)
    case BinYear(y) => t.Year? && y < 10000
    case BinTime(_, d, h, i, s, u) => t.Time? && d < 1000 && h < 24 && i < 60 && s < 60 && u < 1000000
    case BinStamp(y, o, d, h, i, s, u) =>
      && (t.DateTime? || t.Timestamp? || (t.Date? && h == 0 && i == 0 && s == 0 && u == 0))
      && y < 10000 && o < 13 && d < 32 && h < 24 && i < 60 && s < 60 && u < 1000000 && StampBytes(y, o, d, h, i, s, u) != [0]
  }

  /** An integer in a signed cell of its width. */
  function Wrapped(t: ColType, v: int): int
  {
    match t
    case Tiny => if v < 0x80 then v else v - 0x100
    case Short => if v < 0x8000 then v else v - 0x1_0000
    case LongLong => if v < 0x8000_0000_0000_0000 then v else v - 0x1_0000_0000_0000_0000
    case _ => if v < 0x8000_0000 then v else v - 0x1_0000_0000
  }

  /** What the client holds. A null column keeps what its cell held, and so does a zero time. */
  function ClientCell(t: ColType, c: BinCell): Value
  {
    match c
    case BinNull =>
      if t.Time? || t.Year? || t.Timestamp? || t.DateTime? || t.Date? then Moment(Tm(0, 0, 0, 0, 0, 0)) else Unset
    case BinInt(v) => if t.LongLong? then Big(Wrapped(t, v)) else Small(Wrapped(t, v))
    case BinBits(b) => Ieee(b)
    case BinText(x) => Text(x)
    case BinYear(y) => Moment(Tm(y - 1900, 0, 1, 0, 0, 0))
    case BinTime(n, d, h, i, s, u) =>
      var v := 86400 * d + 3600 * h + 60 * i + s;
      if v == 0 && u == 0 then Moment(ZERO_TM) else Interval(if n then -v else v, u)
    case BinStamp(y, o, d, h, i, s, _) => Moment(Tm(y - 1900, o - 1, d, h, i, s))
  }

  /* One cell. */

  /** Every value but a null is read where it begins, to its end. */
  lemma CellRead(t: ColType, c: BinCell, before: seq<byte>, after: seq<byte>)
    requires InColumn(t, c) && !c.BinNull? && |before| + |ValueBytes(t, c)| + 20 < TWO64
    ensures BinaryRow.ParseCell(t, before + ValueBytes(t, c) + after, |before|)
         == Good((ClientCell(t, c), |before| + |ValueBytes(t, c)|))
  {
    hide BinaryRow.ParseCell, ToLE, LE, SLE, StampBytes, Encode.ServerBytes;
    match c
    case BinNull =>
    case BinInt(v) => IntRead(t, v, before, after);
    case BinBits(b) => BitsRead(t, b, before, after);
    case BinText(x) => TextRead(t, x, before, after);
    case BinYear(y) => YearRead(t, y, before, after);
    case BinTime(n, d, h, i, s, u) => Encode.ServerTime(n, d, h, i, s, u, before, after);
    case BinStamp(y, o, d, h, i, s, u) => StampRead(t, y, o, d, h, i, s, u, before, after);
  }

  lemma IntRead(t: ColType, v: int, before: seq<byte>, after: seq<byte>)
    requires InColumn(t, BinInt(v))
    ensures BinaryRow.ParseCell(t, before + ToLE(v, IntWidth(t)) + after, |before|)
         == Good((ClientCell(t, BinInt(v)), |before| + IntWidth(t)))
  {
    hide BinaryRow.ParseCell, ToLE, LE, SLE;
    var n := IntWidth(t);
    Pow256Values();
    assert BinaryRow.Width(t) == n;
    Encode.FixedParse(t, ToLE(v, n), before, after);
    SLEToLE(Wrapped(t, v), n);
    SameBytes(v, Wrapped(t, v), n);
  }

  /** A number and what it wraps to are stored as the same bytes. */
  lemma SameBytes(v: int, w: int, n: nat)
    requires w == v || w == v - Pow256(n)
    ensures ToLE(v, n) == ToLE(w, n)
  {
    if w != v { WrapBytes(v, n); }
  }

  lemma {:induction false} WrapBytes(v: int, n: nat)
    ensures ToLE(v, n) == ToLE(v - Pow256(n), n)
    decreases n
  {
    if n > 0 {
      WrapBytes(v / 256, n - 1);
      var p := Pow256(n - 1);
      assert v - Pow256(n) == v - 256 * p;
      DivModUnique(v - 256 * p, 256, v / 256 - p, v % 256);
    }
  }

  lemma BitsRead(t: ColType, b: nat, before: seq<byte>, after: seq<byte>)
    requires InColumn(t, BinBits(b))
    ensures var n := if t.Float? then 4 else 8;
            BinaryRow.ParseCell(t, before + ToLE(b, n) + after, |before|) == Good((Ieee(b), |before| + n))
  {
    hide BinaryRow.ParseCell, ToLE, LE, SLE;
    var n := if t.Float? then 4 else 8;
    Pow256Values();
    Encode.FixedParse(t, ToLE(b, n), before, after);
    LEToLEExact(b, n);
  }

  lemma TextRead(t: ColType, x: seq<byte>, before: seq<byte>, after: seq<byte>)
    requires InColumn(t, BinText(x)) && |before| + |x| + 20 < TWO64
    ensures BinaryRow.ParseCell(t, before + (ServerLcb(|x|) + x) + after, |before|)
         == Good((Text(x), |before| + |ServerLcb(|x|) + x|))
  {
    hide MyLcb, ServerLcb;
    ServerLcbDecodes(|x|, x + after);
    Encode.ShortText(t, x, ServerLcb(|x|), before, after);
  }

  lemma YearRead(t: ColType, y: nat, before: seq<byte>, after: seq<byte>)
    requires InColumn(t, BinYear(y))
    ensures BinaryRow.ParseCell(t, before + ToLE(y, 2) + after, |before|) == Good((ClientCell(t, BinYear(y)), |before| + 2))
  {
    hide ToLE, LE;
    Pow256Values();
    LEToLEExact(y, 2);
    Middle(before, ToLE(y, 2), after, 0, 2);
    assert ToLE(y, 2)[0..2] == ToLE(y, 2);
  }

  /** Dates and timestamps in the forms of four, seven and eleven bytes. */
  lemma StampRead(t: ColType, y: nat, o: byte, d: byte, h: byte, i: byte, s: byte, u: nat, before: seq<byte>, after: seq<byte>)
    requires InColumn(t, BinStamp(y, o, d, h, i, s, u)) && |before| + 20 < TWO64
    ensures var x := StampBytes(y, o, d, h, i, s, u);
            BinaryRow.ParseCell(t, before + x + after, |before|)
            == Good((Moment(Tm(y - 1900, o - 1, d, h, i, s)), |before| + |x|))
  {
    hide ToLE, LE, BinaryRow.ParseCell;
    var x := StampBytes(y, o, d, h, i, s, u);
    Pow256Values();
    LEToLEExact(y, 2);
    var body := x[1..];
    assert x == [|body|] + body && |body| in {4, 7, 11};
    StampParse(t, body, before, after);
    assert body[0..2] == ToLE(y, 2);
  }

  /** A value of that length in front of a date is read as far as a date or a timestamp needs it. */
  lemma StampParse(t: ColType, body: seq<byte>, before: seq<byte>, after: seq<byte>)
    requires (t.DateTime? || t.Timestamp? || t.Date?) && |body| in {4, 7, 11} && (t.Date? ==> |body| == 4)
    requires |before| + 20 < TWO64
    ensures var tm := Tm(LE(body[0..2]) - 1900, CharToInt(body[2]) - 1, CharToInt(body[3]),
                         if |body| > 4 then CharToInt(body[4]) else 0, if |body| > 4 then CharToInt(body[5]) else 0,
                         if |body| > 4 then CharToInt(body[6]) else 0);
            BinaryRow.ParseCell(t, before + ([|body|] + body) + after, |before|) == Good((Moment(tm), |before| + 1 + |body|))
  {
    hide LE, BinaryRow.Stamp;
    var p := before + ([|body|] + body) + after;
    assert p[|before|..][0] == |body|;
    assert p == (before + [|body|]) + body + after;
    var n := if |body| > 4 then 7 else 4;
    Middle(before + [|body|], body, after, 0, n);
    StampOf(body, n);
  }

  lemma StampOf(body: seq<byte>, n: nat)
    requires n <= |body| && (n == 4 || n == 7)
    ensures BinaryRow.Stamp<seq<byte>>(body[0..n])
         == Moment(Tm(LE(body[0..2]) - 1900, CharToInt(body[2]) - 1, CharToInt(body[3]),
                      if n == 7 then CharToInt(body[4]) else 0, if n == 7 then CharToInt(body[5]) else 0,
                      if n == 7 then CharToInt(body[6]) else 0))
  {
    hide LE;
    assert body[0..n][0..2] == body[0..2];
  }

  /** A server sends a zero date without bytes; the decoder reads four, whatever they are. It gets a zero date exactly when
      four zeros follow. */
  lemma ZeroStamp(t: ColType, before: seq<byte>, after: seq<byte>)
    requires (t.DateTime? || t.Timestamp? || t.Date?) && |before| + 1 < TWO64
    ensures var r := BinaryRow.ParseCell(t, before + StampBytes(0, 0, 0, 0, 0, 0, 0) + after, |before|);
            r == Good((Moment(Tm(-1900, -1, 0, 0, 0, 0)), |before| + 1)) <==> |after| >= 4 && after[..4] == [0, 0, 0, 0]
  {
    var p := before + [0] + after;
    assert p[|before|..][0] == 0;
    if |after| >= 4 {
      assert p[|before| + 1..|before| + 5] == after[..4];
      var x, two := after[..4], after[0..2];
      assert x[0..2] == two && two[1..][1..] == [];
      assert LE(two[1..]) == two[1];
      assert LE(two) == two[0] as int + 256 * LE(two[1..]);
    }
  }

  /** A server sends decimals as text with a length, and the decoder takes eight bytes: it stops behind the value only when
      length and text are eight bytes long. Of ENUM, SET and GEOMETRY values it takes none. */
  lemma Misread(t: ColType, x: seq<byte>, before: seq<byte>, after: seq<byte>)
    requires |x| < TWO24 && (t.Decimal? || t.NewDecimal? || t.Enum? || t.Set? || t.Geometry?)
    ensures var v := ServerLcb(|x|) + x;
            var r := BinaryRow.ParseCell(t, before + v + after, |before|);
            r.Good? && r.value.1 == |before| + |v| ==> (t.Decimal? || t.NewDecimal?) && |v| == 8
  {
    hide ServerLcb, SLE;
  }

  /** A value that is cut short is refused, whatever its type but for a year. */
  lemma CellCut(t: ColType, c: BinCell, before: seq<byte>, k: nat)
    requires InColumn(t, c) && !c.BinNull? && !c.BinYear? && k < |ValueBytes(t, c)|
    requires |before| + |ValueBytes(t, c)| + 20 < TWO64
    ensures BinaryRow.ParseCell(t, before + ValueBytes(t, c)[..k], |before|) == Bad(17)
  {
    hide ToLE, LE, SLE, ServerLcb, MyLcb, BinaryRow.ParseCell;
    var x := ValueBytes(t, c);
    var p := before + x[..k];
    assert p[|before|..] == x[..k];
    Short(t, p, |before|);
    if c.BinInt? || c.BinBits? {
      assert |x| == BinaryRow.Width(t);
    } else if c.BinText? {
      TextCut(c.x, k);
    } else {
      LengthCut(x, k);
    }
  }

  lemma Short(t: ColType, p: seq<byte>, i: nat)
    requires i <= |p|
    ensures BinaryRow.Width(t) > 0 && i + BinaryRow.Width(t) > |p| ==> BinaryRow.ParseCell(t, p, i) == Bad(17)
    ensures var r := MyLcb(p[i..]);
            BinaryRow.IsCounted(t) && (r.BadLcb? || |p| < i + r.used + r.value < TWO64) ==>
              BinaryRow.ParseCell(t, p, i) == Bad(17)
  {
    hide MyLcb, BinaryRow.Fixed, BinaryRow.Stamp, BinaryRow.Clock, BinaryRow.YearCell;
  }

  lemma TextCut(x: seq<byte>, k: nat)
    requires |x| < TWO24 && k < |ServerLcb(|x|) + x|
    ensures var r := MyLcb((ServerLcb(|x|) + x)[..k]);
            r.BadLcb? || (r.used + r.value > k && r.used + r.value <= 4 + |x|)
  {
    hide ToLE, LE;
    var head := ServerLcb(|x|);
    if k >= |head| {
      assert (head + x)[..k] == head + x[..k - |head|];
      ServerLcbDecodes(|x|, x[..k - |head|]);
    } else if k > 0 {
      assert (head + x)[..k][0] == head[0];
    }
  }

  lemma LengthCut(x: seq<byte>, k: nat)
    requires k < |x| && x[0] as int == |x| - 1 && x[0] <= 12
    ensures MyLcb(x[..k]) == if k == 0 then BadLcb else Lcb(x[0], false, 1)
  {}

  /** And so is a row without its whole bitmap. */
  lemma HeadCut(types: seq<ColType>, p: seq<byte>)
    requires |p| < 1 + (|types| + 9) / 8
    ensures BinaryRow.ParseRow(types, p) == Bad(17)
  {}

  /* Rows. */

  /** Column j is null, and that is bit j + 2. */
  predicate NullBit(cells: seq<BinCell>, k: nat)
  {
    2 <= k < |cells| + 2 && cells[k - 2].BinNull?
  }

  /** The lowest `b` bits of byte `k` of the bitmap. */
  function Bits(cells: seq<BinCell>, k: nat, b: nat): (r: nat)
    ensures r < BinaryRow.Pow2(b)
    decreases b
  {
    if b == 0 then 0 else Bits(cells, k, b - 1) + (if NullBit(cells, 8 * k + b - 1) then BinaryRow.Pow2(b - 1) else 0)
  }

  function NullBitmap(cells: seq<BinCell>): (r: seq<byte>)
    ensures |r| == (|cells| + 9) / 8
  {
    seq((|cells| + 9) / 8, k requires 0 <= k < (|cells| + 9) / 8 => BitmapByte(cells, k))
  }

  function BitmapByte(cells: seq<BinCell>, k: nat): byte
  {
    Eight();
    Bits(cells, k, 8)
  }

  lemma Eight()
    ensures BinaryRow.Pow2(8) == 256
  {
    assert BinaryRow.Pow2(3) == 8;
    assert BinaryRow.Pow2(6) == 64;
  }

  lemma {:induction false} BitsAt(cells: seq<BinCell>, k: nat, b: nat, n: nat)
    requires b < n
    ensures Bits(cells, k, n) / BinaryRow.Pow2(b) % 2 == (if NullBit(cells, 8 * k + b) then 1 else 0)
    decreases n
  {
    hide BinaryRow.Pow2, NullBit;
    var low, p := Bits(cells, k, n - 1), BinaryRow.Pow2(b);
    if b == n - 1 {
      TopBit(low, p, NullBit(cells, 8 * k + b));
    } else {
      BitsAt(cells, k, b, n - 1);
      if NullBit(cells, 8 * k + n - 1) {
        HigherBit(low, b, n - 1);
      }
    }
  }

  lemma TopBit(low: nat, p: nat, set_: bool)
    requires low < p
    ensures (low + (if set_ then p else 0)) / p % 2 == if set_ then 1 else 0
  {
    DivModUnique(low + (if set_ then p else 0), p, if set_ then 1 else 0, low);
  }

  /** A higher bit does not disturb a lower one. */
  lemma HigherBit(x: nat, b: nat, n: nat)
    requires b < n
    ensures (x + BinaryRow.Pow2(n)) / BinaryRow.Pow2(b) % 2 == x / BinaryRow.Pow2(b) % 2
  {
    hide BinaryRow.Pow2;
    var h := Ratio(b, n);
    AddEven(x, BinaryRow.Pow2(b), h);
  }

  lemma AddEven(x: nat, p: nat, h: nat)
    requires p > 0
    ensures (x + p * (2 * h)) / p % 2 == x / p % 2
  {
    var a, r := x / p, x % p;
    assert x == p * a + r;
    Distribute(p, a, 2 * h);
    DivModUnique(x + p * (2 * h), p, a + 2 * h, r);
    assert (a + 2 * h) % 2 == a % 2;
  }

  lemma Distribute(p: int, a: int, b: int)
    ensures p * (a + b) == p * a + p * b
  {}

  /** How often the double of one power goes into a higher one. */
  lemma {:induction false} Ratio(b: nat, n: nat) returns (h: nat)
    requires b < n
    ensures BinaryRow.Pow2(n) == BinaryRow.Pow2(b) * (2 * h)
    decreases n
  {
    if n == b + 1 {
      h := 1;
    } else {
      var g := Ratio(b, n - 1);
      h := 2 * g;
      Double(BinaryRow.Pow2(b), g);
    }
  }

  lemma Double(p: nat, g: nat)
    ensures 2 * (p * (2 * g)) == p * (2 * (2 * g))
  {}

  /** The decoder finds the null columns. */
  lemma NullFound(cells: seq<BinCell>, j: nat)
    requires j < |cells|
    ensures BinaryRow.BitAt(NullBitmap(cells), j + 2) <==> cells[j].BinNull?
  {
    hide Bits, BinaryRow.Pow2;
    BitsAt(cells, (j + 2) / 8, (j + 2) % 8, 8);
  }

  predicate RowOk(types: seq<ColType>, cells: seq<BinCell>)
  {
    |cells| == |types| && forall j :: 0 <= j < |cells| ==> InColumn(types[j], cells[j])
  }

  /** The values from column `j` on. */
  function Values(types: seq<ColType>, cells: seq<BinCell>, j: nat): seq<byte>
    requires RowOk(types, cells) && j <= |cells|
    decreases |cells| - j
  {
    if j == |cells| then [] else ValueBytes(types[j], cells[j]) + Values(types, cells, j + 1)
  }

  /** A row as a server sends it. */
  function ServerRow(types: seq<ColType>, cells: seq<BinCell>): seq<byte>
    requires RowOk(types, cells)
  {
    [0] + NullBitmap(cells) + Values(types, cells, 0)
  }

  function ClientRow(types: seq<ColType>, cells: seq<BinCell>): (r: seq<Value>)
    requires |types| == |cells|
    ensures |r| == |cells|
  {
    seq(|cells|, j requires 0 <= j < |cells| => ClientCell(types[j], cells[j]))
  }

  lemma {:induction false} CellsRead(types: seq<ColType>, cells: seq<BinCell>, j: nat, before: seq<byte>)
    requires RowOk(types, cells) && j <= |cells| && |before| + |Values(types, cells, j)| + 20 < TWO64
    requires 1 + |NullBitmap(cells)| <= |before| && before[1..1 + |NullBitmap(cells)|] == NullBitmap(cells)
    ensures var p := before + Values(types, cells, j);
            BinaryRow.ParseCells(types, p, |before|, ClientRow(types, cells)[..j]) == Good(ClientRow(types, cells))
    decreases |cells| - j
  {
    hide BinaryRow.ParseCell, BinaryRow.BitAt, ValueBytes, ClientCell, InColumn, NullBitmap;
    var p, row := before + Values(types, cells, j), ClientRow(types, cells);
    if j == |cells| {
      assert row[..j] == row;
    } else {
      assert p[1..1 + |NullBitmap(cells)|] == NullBitmap(cells);
      assert row[..j] + [row[j]] == row[..j + 1];
      NullFound(cells, j);
      var x, rest := ValueBytes(types[j], cells[j]), Values(types, cells, j + 1);
      assert p == before + x + rest && p == (before + x) + rest;
      if cells[j].BinNull? {
        NullCell(types[j]);
        assert before + x == before;
        CellsRead(types, cells, j + 1, before);
      } else {
        CellRead(types[j], cells[j], before, rest);
        CellsRead(types, cells, j + 1, before + x);
      }
    }
  }

  lemma NullCell(t: ColType)
    ensures InColumn(t, BinNull) && ValueBytes(t, BinNull) == [] && ClientCell(t, BinNull) == Initial(t)
  {}

  /** Every binary row a server sends, with any set of null columns, is decoded to its cells; for as many columns as the
      decoder has room for. */
  lemma RowRoundTrip(types: seq<ColType>, cells: seq<BinCell>)
    requires RowOk(types, cells) && |cells| <= 126 && |ServerRow(types, cells)| + 20 < TWO64
    ensures BinaryRow.ParseRow(types, ServerRow(types, cells)) == Good(ClientRow(types, cells))
  {
    hide BinaryRow.ParseCells, NullBitmap, Values, ClientRow;
    var head := [0] + NullBitmap(cells);
    assert head[1..1 + |NullBitmap(cells)|] == NullBitmap(cells);
    assert ClientRow(types, cells)[..0] == [];
    CellsRead(types, cells, 0, head);
  }
}
