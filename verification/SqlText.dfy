/** The text MySQL sends for typed values, and what the text decoder makes of it. */
module SqlText {
  import opened Bytes
  import opened CText
  import opened Result
  import TextRow

  type Value = Cell<seq<byte>>

  datatype SqlValue =
    | Chars(x: seq<byte>)
    | Integer(v: int)
    | Number(minus: bool, whole: nat, part: nat, places: nat, exponent: int) // of a FLOAT or DOUBLE
    | YearOf(year: nat)
    | TimeOf(minus: bool, hour: nat, min: nat, sec: nat)
    | DateOf(year: nat, mon: nat, mday: nat)
    | StampOf(year: nat, mon: nat, mday: nat, hour: nat, min: nat, sec: nat)

  const DASH: byte := 45
  const COLON: byte := 58
  const BLANK: byte := 32

  function ValueText(v: SqlValue): seq<byte>
  {
    match v
    case Chars(x) => x
    case Integer(i) => IntText(i)
    case Number(n, w, r, p, e) => FloatText(n, w, r, p, e)
    case YearOf(y) => Padded(y, 4)
    case TimeOf(n, h, i, s) => (if n then [DASH] else []) + TimeText(h, i, s)
    case DateOf(y, m, d) => DateText(y, m, d)
    case StampOf(y, m, d, h, i, s) => DateText(y, m, d) + [BLANK] + TimeText(h, i, s)
  }

  function TimeText(h: nat, i: nat, s: nat): seq<byte>
  {
    Padded(h, 2) + [COLON] + Padded(i, 2) + [COLON] + Padded(s, 2)
  }

  function DateText(y: nat, m: nat, d: nat): seq<byte>
  {
    Padded(y, 4) + [DASH] + Padded(m, 2) + [DASH] + Padded(d, 2)
  }

  /** The value belongs to the column's type and range. */
  predicate InColumn(t: ColType, v: SqlValue)
  {
    match v
    case Chars(_) =>
      || t.VarChar? || t.VarString? || t.String? || t.TinyBlob? || t.MediumBlob? || t.LongBlob? || t.Blob? || t.Bit?
      || t.NewDate? || t.NullType? || IsLeft(t)
    case Integer(i) =>
      || ((t.Tiny? || t.Short? || t.Int24? || t.Long?) && -0x8000_0000 <= i < TWO32) // signed or UNSIGNED
      || (t.LongLong? && LONG_MIN <= i < TWO64)
      || t.Decimal? || t.NewDecimal?
    case Number(_, _, r, p, _) => (t.Float? || t.Double?) && r < Pow(p)
    case YearOf(y) => t.Year? && y < 10000
    case TimeOf(n, h, i, s) => t.Time? && h <= 838 && i < 100 && s < 100
    case DateOf(y, m, d) => t.Date? && y < 10000 && m < 100 && d < 100
    case StampOf(y, m, d, h, i, s) =>
      (t.Timestamp? || t.DateTime?) && y < 10000 && m < 100 && d < 100 && h < 100 && i < 100 && s < 100
  }

  /** Columns whose cells are left alone. */
  predicate IsLeft(t: ColType) { t.Enum? || t.Set? || t.Geometry? }

  /** Numbers kept in 64 bits. */
  predicate IsBig(t: ColType) { t.LongLong? || t.Decimal? || t.NewDecimal? }

  /** What the client holds for a value; months count from 0 and years from 1900, as in `struct tm`. A time that is
      negative or has more than two digits of hours is not read, and its cell stays what it was. Numbers beyond the signed
      width of the cell wrap, and those beyond a `long` become the nearest one. */
  function ClientValue(t: ColType, v: SqlValue): Value
  {
    match v
    case Chars(x) => if IsLeft(t) then Unset else Text(x)
    case Integer(i) => if IsBig(t) then Big(Clamp(i)) else Small(Int32(Clamp(i)))
    case Number(n, w, r, p, e) => Real(FloatValue(n, w, r, p, e))
    case YearOf(y) => Moment(Tm(y - 1900, 0, 1, 0, 0, 0))
    case TimeOf(n, h, i, s) => if n || h >= 100 then Moment(Tm(0, 0, 0, 0, 0, 0)) else Interval(3600 * h + 60 * i + s, 0)
    case DateOf(y, m, d) => Moment(Tm(y - 1900, m - 1, d, 0, 0, 0))
    case StampOf(y, m, d, h, i, s) => Moment(Tm(y - 1900, m - 1, d, h, i, s))
  }

  /** The text of every value in a column's range is converted to that value. */
  lemma ValueRoundTrip(t: ColType, v: SqlValue)
    requires InColumn(t, v)
    ensures TextRow.ParseCell(t, ValueText(v)) == Good(ClientValue(t, v))
  {
    hide StrTol, StrTod, UpToNul, Padded, IntText, FloatText, FloatValue, DateText, TimeText, TextRow.ParseMoment,
         TextRow.ParseCell, TextRow.ParseNumber;
    TextRow.CellKinds(t, ValueText(v));
    match v
    case Chars(_) =>
    case Integer(i) => IntegerRead(t, i);
    case Number(n, w, r, p, e) => NumberRead(t, n, w, r, p, e);
    case YearOf(y) => YearRead(t, y);
    case TimeOf(n, h, i, s) => TimeKept(t, n, h, i, s);
    case DateOf(y, m, d) => DateRead(t, y, m, d);
    case StampOf(y, m, d, h, i, s) => StampRead(t, y, m, d, h, i, s);
  }

  lemma CharsText(x: seq<byte>)
    ensures ValueText(Chars(x)) == x
  {}

  lemma IntegerRead(t: ColType, i: int)
    requires InColumn(t, Integer(i))
    ensures TextRow.IsNumber(t) && TextRow.ParseNumber(t, UpToNul(IntText(i))) == Good(ClientValue(t, Integer(i)))
  {
    hide StrTol, UpToNul, IntText, Int32, Clamp;
    StrTolIntText(i);
  }

  lemma NumberRead(t: ColType, minus: bool, whole: nat, part: nat, places: nat, exponent: int)
    requires (t.Float? || t.Double?) && part < Pow(places)
    ensures TextRow.ParseNumber<seq<byte>>(t, UpToNul(FloatText(minus, whole, part, places, exponent)))
         == Good(Real(FloatValue(minus, whole, part, places, exponent)))
  {
    hide StrTod, UpToNul, FloatText, FloatValue, Pow;
    StrTodFloat(minus, whole, part, places, exponent);
    FloatPlain(minus, whole, part, places, exponent);
  }

  /** The text of a DECIMAL with digits behind the point is refused, and with it the whole result. */
  lemma FractionRefused(t: ColType, minus: bool, whole: nat, part: nat, places: nat)
    requires (t.Decimal? || t.NewDecimal?) && places > 0
    ensures TextRow.ParseCell(t, FloatText(minus, whole, part, places, 0)) == Bad(20)
  {
    hide StrTol, UpToNul, FloatText;
    StrTolFraction(minus, whole, part, places);
    FloatPlain(minus, whole, part, places, 0);
  }

  /** An integer comes back exactly when it fits the signed width of the cell. */
  lemma IntegerKept(t: ColType, i: int)
    requires InColumn(t, Integer(i))
    ensures TextRow.ParseCell(t, ValueText(Integer(i))) == Good(if IsBig(t) then Big(i) else Small(i))
            <==> if IsBig(t) then LONG_MIN <= i <= LONG_MAX else -0x8000_0000 <= i < 0x8000_0000
  {
    hide TextRow.ParseCell, ValueText;
    ValueRoundTrip(t, Integer(i));
  }

  lemma YearRead(t: ColType, y: nat)
    requires t.Year? && y < 10000
    ensures TextRow.ParseMoment(t, Padded(y, 4)) == Good(ClientValue(t, YearOf(y)))
  {
    hide StrTol, UpToNul, Padded;
    assert Pow(4) == 10000;
    PaddedWidth(y, 4);
    StrTolPadded(y, 4);
  }

  /** Where the numbers of a date stand. */
  lemma DateSlices(y: nat, m: nat, d: nat)
    requires y < 10000 && m < 100 && d < 100
    ensures var x := DateText(y, m, d);
            |x| == 10 && x[0..4] == Padded(y, 4) && x[5..7] == Padded(m, 2) && x[8..10] == Padded(d, 2)
  {
    hide Padded;
    assert Pow(4) == 10000 && Pow(2) == 100;
    PaddedWidth(y, 4);
    PaddedWidth(m, 2);
    PaddedWidth(d, 2);
  }

  /** A piece that is a padded number is read as it and to its end. */
  lemma PieceRead(x: seq<byte>, starts: seq<nat>, stops: seq<nat>, k: nat, v: nat, width: nat)
    requires TextRow.Separated(starts, stops, |x|) && k < |stops| && x[starts[k]..stops[k]] == Padded(v, width)
    requires 0 < width && v <= LONG_MAX
    ensures TextRow.Piece(x, starts, stops, k) == (v, |UpToNul(x[starts[k]..stops[k]])|)
  {
    StrTolPadded(v, width);
  }

  lemma DateRead(t: ColType, y: nat, m: nat, d: nat)
    requires InColumn(t, DateOf(y, m, d))
    ensures TextRow.ParseMoment(t, DateText(y, m, d)) == Good(ClientValue(t, DateOf(y, m, d)))
  {
    hide StrTol, UpToNul, Padded, DateText, TextRow.Piece;
    var x := DateText(y, m, d);
    DateSlices(y, m, d);
    var starts, stops := TextRow.Starts(t), TextRow.Stops(t);
    PieceRead(x, starts, stops, 0, y, 4);
    PieceRead(x, starts, stops, 1, m, 2);
    PieceRead(x, starts, stops, 2, d, 2);
    var ns := TextRow.Pieces(x, starts, stops);
    assert ns[0] == y && ns[1] == m && ns[2] == d;
  }

  lemma TimeSlices(h: nat, i: nat, s: nat)
    requires h < 100 && i < 100 && s < 100
    ensures var x := TimeText(h, i, s);
            |x| == 8 && x[0..2] == Padded(h, 2) && x[3..5] == Padded(i, 2) && x[6..8] == Padded(s, 2)
  {
    hide Padded;
    assert Pow(2) == 100;
    PaddedWidth(h, 2);
    PaddedWidth(i, 2);
    PaddedWidth(s, 2);
  }

  lemma TimeRead(t: ColType, h: nat, i: nat, s: nat)
    requires t.Time? && h < 100 && i < 100 && s < 100
    ensures TextRow.ParseMoment(t, TimeText(h, i, s)) == Good(ClientValue(t, TimeOf(false, h, i, s)))
  {
    hide StrTol, UpToNul, Padded, TimeText, TextRow.Piece;
    var x := TimeText(h, i, s);
    TimeSlices(h, i, s);
    var starts, stops := TextRow.Starts(t), TextRow.Stops(t);
    PieceRead(x, starts, stops, 0, h, 2);
    PieceRead(x, starts, stops, 1, i, 2);
    PieceRead(x, starts, stops, 2, s, 2);
    var ns := TextRow.Pieces(x, starts, stops);
    assert ns[0] == h && ns[1] == i && ns[2] == s;
  }

  /** A time is read exactly when its text has eight bytes, and that is when it is not negative and below 100 hours. */
  lemma TimeKept(t: ColType, n: bool, h: nat, i: nat, s: nat)
    requires InColumn(t, TimeOf(n, h, i, s))
    ensures var x := ValueText(TimeOf(n, h, i, s));
            && (|x| == 8 <==> !n && h < 100)
            && TextRow.ParseMoment<seq<byte>>(t, x)
               == Good(if |x| == 8 then Interval(3600 * h + 60 * i + s, 0) else Moment(ZERO_TM))
  {
    hide StrTol, UpToNul, Padded;
    TimeWidth(h, i, s);
    if h < 100 && !n {
      assert ValueText(TimeOf(n, h, i, s)) == TimeText(h, i, s);
      TimeRead(t, h, i, s);
    }
  }

  lemma TimeWidth(h: nat, i: nat, s: nat)
    requires h <= 838 && i < 100 && s < 100
    ensures |TimeText(h, i, s)| == if h < 100 then 8 else 9
  {
    hide Padded;
    assert Pow(2) == 100 && Pow(3) == 1000;
    PaddedWidth(i, 2);
    PaddedWidth(s, 2);
    if h < 100 { PaddedWidth(h, 2); } else { PaddedWidth(h, 3); PaddedMore(h); }
  }

  /** Three digits are not padded. */
  lemma PaddedMore(v: nat)
    requires v >= 100
    ensures Padded(v, 2) == Padded(v, 3)
  {
    assert Padded(v / 100, 0) == Padded(v / 100, 1);
    assert Padded(v / 10, 1) == Padded(v / 10, 2);
  }

  lemma StampSlices(y: nat, m: nat, d: nat, h: nat, i: nat, s: nat)
    requires y < 10000 && m < 100 && d < 100 && h < 100 && i < 100 && s < 100
    ensures var x := ValueText(StampOf(y, m, d, h, i, s));
            && |x| == 19 && x[0..4] == Padded(y, 4) && x[5..7] == Padded(m, 2) && x[8..10] == Padded(d, 2)
            && x[11..13] == Padded(h, 2) && x[14..16] == Padded(i, 2) && x[17..19] == Padded(s, 2)
  {
    hide Padded, DateText, TimeText;
    var a, b := DateText(y, m, d), TimeText(h, i, s);
    DateSlices(y, m, d);
    TimeSlices(h, i, s);
    var x := a + [BLANK] + b;
    Middle([], a, [BLANK] + b, 0, 4);
    Middle([], a, [BLANK] + b, 5, 7);
    Middle([], a, [BLANK] + b, 8, 10);
    assert [] + a + ([BLANK] + b) == x == (a + [BLANK]) + b + [];
    Middle(a + [BLANK], b, [], 0, 2);
    Middle(a + [BLANK], b, [], 3, 5);
    Middle(a + [BLANK], b, [], 6, 8);
  }

  lemma StampRead(t: ColType, y: nat, m: nat, d: nat, h: nat, i: nat, s: nat)
    requires InColumn(t, StampOf(y, m, d, h, i, s))
    ensures TextRow.ParseMoment(t, ValueText(StampOf(y, m, d, h, i, s))) == Good(ClientValue(t, StampOf(y, m, d, h, i, s)))
  {
    hide StrTol, UpToNul, Padded, ValueText, TextRow.Piece;
    var x := ValueText(StampOf(y, m, d, h, i, s));
    StampSlices(y, m, d, h, i, s);
    var starts, stops := TextRow.Starts(t), TextRow.Stops(t);
    PieceRead(x, starts, stops, 0, y, 4);
    PieceRead(x, starts, stops, 1, m, 2);
    PieceRead(x, starts, stops, 2, d, 2);
    PieceRead(x, starts, stops, 3, h, 2);
    PieceRead(x, starts, stops, 4, i, 2);
    PieceRead(x, starts, stops, 5, s, 2);
    var ns := TextRow.Pieces(x, starts, stops);
    assert ns[0] == y && ns[1] == m && ns[2] == d && ns[3] == h && ns[4] == i && ns[5] == s;
  }
}
