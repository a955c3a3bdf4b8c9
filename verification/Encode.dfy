/** `mysac_encode_value`, the inverse of the binary row decoder. */
module Encode {
  import opened Bytes
  import opened Lcb
  import opened Result
  import BinaryRow

  type Value = BinaryRow.Value

  datatype Encoded = Encoding(bytes: seq<byte>) | Refused

  /** A MYSAC_BIND points to what its type says: bytes, an int, a long long, a float or double, a timeval or a tm. */
  predicate Suits(t: ColType, v: Value)
  {
    if t.NullType? then v.Null?
    else if IsText(t) then v.Text? && |v.text| < TWO32 / 2
    else if t.Float? || t.Double? then v.Ieee? && v.bits < (if t.Float? then TWO32 else TWO64)
    else if BinaryRow.Width(t) == 8 then v.Big?
    else if BinaryRow.Width(t) > 0 then v.Small?
    else if t.Time? then v.Interval?
    else if IsDated(t) then v.Moment?
    else true
  }

  /** `set_my_lcb` for the length of a string; 65535 is refused. */
  function Prefix(n: nat): Encoded
    requires n < TWO32 / 2
  {
    if n <= 250 then Encoding([n])
    else if n < 0xffff then Encoding([252] + ToLE(n, 2))
    else if n == 0xffff then Refused
    else if n <= 0xff_ffff then Encoding([253] + ToLE(n, 3))
    else Encoding([254] + ToLE(n, 4))
  }

  /** Year, month and day of a date. */
  function DateBytes(tm: Tm): (r: seq<byte>)
    ensures |r| == 4
  {
    ToLE(tm.year + 1900, 2) + [(tm.mon + 1) % 256, tm.mday % 256]
  }

  /** Days, hours, minutes and seconds. */
  function ClockBytes(s: nat): (r: seq<byte>)
    ensures |r| == 7
  {
    var v := s % 86400;
    ToLE(s / 86400, 4) + [v / 3600, v % 3600 / 60, v % 3600 % 60]
  }

  /** The clock, the sign and the microseconds of a time. */
  function TimeBytes(sec: int, usec: int): seq<byte>
  {
    [12] + ClockBytes(if sec < 0 then -sec else sec) + [if sec < 0 then 1 else 0] + ToLE(usec, 4)
  }

  /** The bytes of a value; the sign of a time stands behind its seconds. */
  function Encode(t: ColType, v: Value): Encoded
    requires Suits(t, v)
  {
    if t.NullType? then Encoding([])
    else if IsText(t) then
      var p := Prefix(|v.text|);
      if p.Refused? then p else Encoding(p.bytes + v.text)
    else match t
      case Tiny | Short | Int24 | Long => Encoding(ToLE(v.small, BinaryRow.Width(t)))
      case Decimal | NewDecimal | LongLong => Encoding(ToLE(v.big, 8))
      case Float | Double => Encoding(ToLE(v.bits, BinaryRow.Width(t)))
      case Time => Encoding(TimeBytes(v.sec, v.usec))
      case Year => Encoding(ToLE(v.tm.year + 1900, 2))
      case Timestamp | DateTime => Encoding([7] + DateBytes(v.tm) + [v.tm.hour % 256, v.tm.min % 256, v.tm.sec % 256])
      case Date => Encoding([4] + DateBytes(v.tm))
      case _ => Refused
  }

  /** `v` fits in `n` bytes, with a sign. */
  predicate Signed(v: int, n: nat) { 0 <= 2 * v + Pow256(n) < 2 * Pow256(n) }

  predicate FitsByte(v: int) { -128 <= v < 128 }

  /** The values that come back. */
  predicate InRange(t: ColType, v: Value)
    requires Suits(t, v)
  {
    if t.NullType? then false
    else if IsText(t) then |v.text| < TWO24
    else match t
      case Tiny | Short | Int24 | Long =>
        Signed(v.small, BinaryRow.Width(t))
      case Decimal | NewDecimal | LongLong => Signed(v.big, 8)
      case Float | Double => true
      case Year => 0 <= v.tm.year + 1900 < TWO16 && v.tm == Tm(v.tm.year, 0, 1, 0, 0, 0)
      case Timestamp | DateTime =>
        0 <= v.tm.year + 1900 < TWO16 && FitsByte(v.tm.mon + 1) && FitsByte(v.tm.mday) && FitsByte(v.tm.hour)
        && FitsByte(v.tm.min) && FitsByte(v.tm.sec)
      case Date =>
        0 <= v.tm.year + 1900 < TWO16 && FitsByte(v.tm.mon + 1) && FitsByte(v.tm.mday)
        && v.tm == Tm(v.tm.year, v.tm.mon, v.tm.mday, 0, 0, 0)
      case Time => v.sec == 0 && 0 <= v.usec < TWO32
      case _ => false
  }

  /** Decoding an encoded value, whatever stands around it. */
  function Decoding(t: ColType, v: Value, before: seq<byte>, after: seq<byte>): Decoded<(Value, int)>
    requires Suits(t, v) && Encode(t, v).Encoding?
  {
    BinaryRow.ParseCell(t, before + Encode(t, v).bytes + after, |before|)
  }

  function End(t: ColType, v: Value, before: seq<byte>): int
    requires Suits(t, v) && Encode(t, v).Encoding?
  {
    |before| + |Encode(t, v).bytes|
  }

  /** A stored integer comes back exactly when it fits. */
  lemma IntBack(v: int, n: nat)
    requires n > 0
    ensures SLE(ToLE(v, n)) == v <==> Signed(v, n)
  {
    LEBound(ToLE(v, n));
    if Signed(v, n) {
      SLEToLE(v, n);
    }
  }

  lemma FixedParse(t: ColType, x: seq<byte>, before: seq<byte>, after: seq<byte>)
    requires BinaryRow.Width(t) > 0 && |x| == BinaryRow.Width(t)
    ensures BinaryRow.ParseCell(t, before + x + after, |before|) == Good((BinaryRow.Fixed(t, x), |before| + |x|))
  {
    hide BinaryRow.Fixed;
    Middle(before, x, after, 0, |x|);
    assert x[0..|x|] == x;
  }

  lemma FixedBack(t: ColType, v: Value, before: seq<byte>, after: seq<byte>)
    requires Suits(t, v) && BinaryRow.Width(t) > 0
    ensures Encode(t, v).Encoding? && (Decoding(t, v, before, after) == Good((v, End(t, v, before))) <==> InRange(t, v))
  {
    hide BinaryRow.ParseCell, LE, SLE, ToLE, Pow256, Signed;
    var n := BinaryRow.Width(t);
    FixedParse(t, Encode(t, v).bytes, before, after);
    if t.Float? || t.Double? {
      Pow256Values();
      LEToLEExact(v.bits, n);
    } else {
      IntBack(if n == 8 then v.big else v.small, n);
    }
  }

  lemma TextBack(t: ColType, v: Value, before: seq<byte>, after: seq<byte>)
    requires Suits(t, v) && IsText(t) && !t.NullType? && Encode(t, v).Encoding? && End(t, v, before) < TWO64
    ensures Decoding(t, v, before, after) == Good((v, End(t, v, before))) <==> InRange(t, v)
  {
    hide Encode, ToLE, MyLcb;
    TextBytes(t, v);
    var n, prefix := |v.text|, Prefix(|v.text|).bytes;
    var p := before + (prefix + v.text) + after;
    assert p[|before|..] == prefix + (v.text + after);
    if n < TWO24 {
      ShortPrefix(n, v.text + after);
      ShortText(t, v.text, prefix, before, after);
    } else {
      LongPrefix(n, v.text + after);
    }
  }

  lemma ShortText(t: ColType, x: seq<byte>, prefix: seq<byte>, before: seq<byte>, after: seq<byte>)
    requires IsText(t) && MyLcb(prefix + (x + after)) == Lcb(|x|, false, |prefix|) && |before| + |prefix| + |x| < TWO64
    ensures BinaryRow.ParseCell(t, before + (prefix + x) + after, |before|)
         == Good((Text(x), |before| + |prefix| + |x|))
  {
    hide MyLcb;
    var p := before + (prefix + x) + after;
    assert p[|before|..] == prefix + (x + after);
    assert p == (before + prefix) + x + after;
    Middle(before + prefix, x, after, 0, |x|);
    assert x[0..|x|] == x;
  }

  lemma TextBytes(t: ColType, v: Value)
    requires Suits(t, v) && IsText(t) && !t.NullType?
    ensures Encode(t, v).Encoding? <==> Prefix(|v.text|).Encoding?
    ensures Encode(t, v).Encoding? ==> Encode(t, v).bytes == Prefix(|v.text|).bytes + v.text
  {
    hide ToLE;
  }

  lemma ShortPrefix(n: nat, rest: seq<byte>)
    requires n < TWO24 && Prefix(n).Encoding?
    ensures MyLcb(Prefix(n).bytes + rest) == Lcb(n, false, |Prefix(n).bytes|)
  {
    ServerLcbDecodes(n, rest);
  }

  /** From 2^24 on the decoder takes nine bytes for the five that were written. */
  lemma LongPrefix(n: nat, rest: seq<byte>)
    requires TWO24 <= n < TWO32 / 2
    ensures |Prefix(n).bytes| == 5
    ensures var r := MyLcb(Prefix(n).bytes + rest); r.Lcb? ==> r.used == 9 && !r.isNull
  {
    assert (Prefix(n).bytes + rest)[0] == 254;
  }

  /** The parts of a date or timestamp of `n` bytes. */
  lemma StampParse(t: ColType, x: seq<byte>, before: seq<byte>, after: seq<byte>)
    requires BinaryRow.IsStamp(t) && |x| == (if t.Date? then 4 else 7) && |before| + 1 + |x| < TWO64
    ensures BinaryRow.ParseCell(t, before + ([|x|] + x) + after, |before|)
         == Good((BinaryRow.Stamp(x), |before| + 1 + |x|))
  {
    hide BinaryRow.Stamp;
    var p := before + ([|x|] + x) + after;
    assert p[|before|..][0] == |x|;
    assert p == (before + [|x|]) + x + after;
    Middle(before + [|x|], x, after, 0, |x|);
    assert x[0..|x|] == x;
  }

  lemma StampBack(t: ColType, v: Value, before: seq<byte>, after: seq<byte>)
    requires Suits(t, v) && BinaryRow.IsStamp(t) && Encode(t, v).Encoding? && End(t, v, before) < TWO64
    ensures (Decoding(t, v, before, after) == Good((v, End(t, v, before))) <==> InRange(t, v))
  {
    hide BinaryRow.ParseCell, ToLE;
    var date := DateBytes(v.tm);
    var x := if t.Date? then date else date + [v.tm.hour % 256, v.tm.min % 256, v.tm.sec % 256];
    assert Encode(t, v).bytes == [|x|] + x;
    StampParse(t, x, before, after);
    assert x[0..2] == ToLE(v.tm.year + 1900, 2);
    YearBack(v.tm.year);
    ByteBack(v.tm.mon + 1);
    ByteBack(v.tm.mday);
    ByteBack(v.tm.hour);
    ByteBack(v.tm.min);
    ByteBack(v.tm.sec);
  }

  lemma ByteBack(v: int)
    ensures CharToInt(v % 256) == v <==> FitsByte(v)
  {}

  lemma YearBack(year: int)
    ensures LE(ToLE(year + 1900, 2)) - 1900 == year <==> 0 <= year + 1900 < TWO16
  {
    Pow256Values();
    LEToLE(year + 1900, 2);
  }

  lemma YearValueBack(t: ColType, v: Value, before: seq<byte>, after: seq<byte>)
    requires Suits(t, v) && t.Year?
    ensures Encode(t, v).Encoding? && (Decoding(t, v, before, after) == Good((v, End(t, v, before))) <==> InRange(t, v))
  {
    hide ToLE, LE;
    var x := ToLE(v.tm.year + 1900, 2);
    Middle(before, x, after, 0, 2);
    assert x[0..2] == x;
    YearBack(v.tm.year);
  }

  /** The value of a time that is not zero: sign, days, hours, minutes and seconds, and microseconds if there are any. */
  function WireTime(minus: bool, days: nat, h: byte, i: byte, s: byte, usec: nat): (x: seq<byte>)
    ensures |x| == if usec > 0 then 12 else 8
  {
    [if minus then 1 else 0] + ToLE(days, 4) + [h, i, s] + (if usec > 0 then ToLE(usec, 4) else [])
  }

  /** A time as a server sends it (Binary Protocol Value, MYSQL_TYPE_TIME): its length and its value; zero has no value. */
  function ServerBytes(minus: bool, days: nat, h: byte, i: byte, s: byte, usec: nat): seq<byte>
  {
    if days == 0 && h == 0 && i == 0 && s == 0 && usec == 0 then [0]
    else var x := WireTime(minus, days, h, i, s, usec); [|x|] + x
  }

  /** What a server sends is read to its end, and comes back exactly when it is not zero; a zero time leaves the pointer
      in the cell. */
  lemma ServerTime(minus: bool, days: nat, h: byte, i: byte, s: byte, usec: nat, before: seq<byte>, after: seq<byte>)
    requires days < 1000 && h < 24 && i < 60 && s < 60 && usec < TWO32 && |before| + 13 < TWO64
    ensures var x, sec := ServerBytes(minus, days, h, i, s, usec), 86400 * days + 3600 * h + 60 * i + s;
            var r := BinaryRow.ParseCell(Time, before + x + after, |before|);
            && (r == Good((Interval(if minus then -sec else sec, usec), |before| + |x|)) <==> sec > 0 || usec > 0)
            && (sec == 0 && usec == 0 ==> r == Good((Moment(ZERO_TM), |before| + |x|)))
  {
    hide WireTime, BinaryRow.ParseCell, ToLE, LE;
    if days == 0 && h == 0 && i == 0 && s == 0 && usec == 0 {
      ZeroParse(before, after);
    } else {
      ClockParse(WireTime(minus, days, h, i, s, usec), before, after);
      WireParts(minus, days, h, i, s, usec);
    }
  }

  lemma ZeroParse(before: seq<byte>, after: seq<byte>)
    requires |before| + 1 < TWO64
    ensures BinaryRow.ParseCell(Time, before + [0] + after, |before|) == Good((Moment(ZERO_TM), |before| + 1))
  {
    assert (before + [0] + after)[|before|..] == [0] + after;
  }

  lemma WireParts(minus: bool, days: nat, h: byte, i: byte, s: byte, usec: nat)
    requires days < TWO32 && usec < TWO32
    ensures var x := WireTime(minus, days, h, i, s, usec);
            && x[0] == (if minus then 1 else 0) && LE(x[1..5]) == days && x[5] == h && x[6] == i && x[7] == s
            && (usec > 0 ==> LE(x[8..12]) == usec)
  {
    hide ToLE, LE;
    var x := WireTime(minus, days, h, i, s, usec);
    Pow256Values();
    LEToLEExact(days, 4);
    LEToLEExact(usec, 4);
    assert x[1..5] == ToLE(days, 4);
    if usec > 0 { assert x[8..12] == ToLE(usec, 4); }
  }

  lemma ClockParse(x: seq<byte>, before: seq<byte>, after: seq<byte>)
    requires (|x| == 8 || |x| == 12) && |before| + 1 + |x| < TWO64
    ensures BinaryRow.ParseCell(Time, before + ([|x|] + x) + after, |before|)
         == Good((BinaryRow.Clock(x), |before| + 1 + |x|))
  {
    hide BinaryRow.Clock;
    var p := before + ([|x|] + x) + after;
    assert p[|before|..][0] == |x|;
    assert p == (before + [|x|]) + x + after;
    Middle(before + [|x|], x, after, 0, |x|);
    assert x[0..|x|] == x;
  }

  /** The encoder puts the days where the decoder expects the sign, and everything else one byte too early. Of all times
      only those below a second come back. */
  lemma TimeBack(v: Value, before: seq<byte>, after: seq<byte>)
    requires Suits(Time, v) && End(Time, v, before) < TWO64
    ensures Decoding(Time, v, before, after) == Good((v, End(Time, v, before))) <==> InRange(Time, v)
  {
    hide ToLE, BinaryRow.ParseCell;
    var s: nat := if v.sec < 0 then -v.sec else v.sec;
    var x := ClockBytes(s) + [if v.sec < 0 then 1 else 0] + ToLE(v.usec, 4);
    assert Encode(Time, v).bytes == [12] + x by { TimeShape(v.sec, v.usec); }
    ClockParse(x, before, after);
    assert x[8..12] == ToLE(v.usec, 4);
    Pow256Values();
    LEToLE(v.usec, 4);
    ClockRead(v.sec, s, x);
  }

  lemma TimeShape(sec: int, usec: int)
    ensures TimeBytes(sec, usec)
         == [12] + (ClockBytes(if sec < 0 then -sec else sec) + [if sec < 0 then 1 else 0] + ToLE(usec, 4))
  {
    hide ClockBytes, ToLE;
  }

  /** What the decoder makes of the bytes of `s` seconds. */
  lemma ClockRead(sec: int, s: nat, x: seq<byte>)
    requires |x| == 12 && s == (if sec < 0 then -sec else sec) && x[..7] == ClockBytes(s) && x[7] == if sec < 0 then 1 else 0
    ensures BinaryRow.Clock<seq<byte>>(x).sec == sec <==> sec == 0
  {
    var v := s % 86400;
    var days, h, i, r := s / 86400, v / 3600, v % 3600 / 60, v % 3600 % 60;
    DaysShifted(days, h, x);
    var upper := days % TWO32 / 256;
    var t := ((upper + TWO24 * h) * 86400 + i * 3600 + r * 60 + x[7]) % TWO32;
    assert BinaryRow.Clock<seq<byte>>(x).sec == if x[0] != 0 then -t else t;
    assert x[0] == days % 256;
    if s == 0 {
      assert t == 0;
    } else if days % 256 != 0 <==> x[7] == 1 {
      Shifted(days, h, i, r, x[7], t);
    }
  }

  /** What is read one byte too early is not what was written, unless it is nothing. */
  lemma Shifted(days: nat, h: nat, i: nat, r: nat, sign: nat, t: int)
    requires h < 24 && i < 60 && r < 60 && sign < 2 && (days % 256 != 0 <==> sign == 1)
    requires t == ((days % TWO32 / 256 + TWO24 * h) * 86400 + i * 3600 + r * 60 + sign) % TWO32
    ensures t == 86400 * days + 3600 * h + 60 * i + r ==> t == 0
  {
    if t == 86400 * days + 3600 * h + 60 * i + r {
      var e, d, q := days / 256, days % 256, 60 * i + r;
      assert days < 49711 && days % TWO32 == days && e <= 194;
      Wrapped(e, h, 60 * q + sign);
      NoSuchTime(e, d, h, q, sign);
    }
  }

  /** Hours in the place of the highest days leave their lowest bit. */
  lemma Wrapped(e: nat, h: nat, rest: nat)
    requires e <= 194 && rest < 300000
    ensures ((e + TWO24 * h) * 86400 + rest) % TWO32 == 86400 * e + rest + 0x8000_0000 * (h % 2)
  {
    var k := (675 * h - h % 2) / 2;
    assert 675 * h == 2 * k + h % 2;
    DivModUnique((e + TWO24 * h) * 86400 + rest, TWO32, k, 86400 * e + rest + 0x8000_0000 * (h % 2));
  }

  lemma NoSuchTime(e: nat, d: nat, h: nat, q: nat, sign: nat)
    requires e <= 194 && d < 256 && h < 24 && q < 3600 && sign < 2 && (d != 0 <==> sign == 1)
    requires 59 * q + sign + 0x8000_0000 * (h % 2) == 3600 * (6120 * e + 24 * d + h)
    ensures e == d == h == q == 0
  {
    var m := 6120 * e + 24 * d + h;
    if h % 2 == 0 {
      EvenHour(q, m, sign);
    } else {
      OddHour(q, m, sign);
    }
  }

  lemma EvenHour(q: nat, m: nat, sign: nat)
    requires q < 3600 && sign < 2 && 59 * q + sign == 3600 * m
    ensures m == sign
  {
    var z := q - 61 * m;
    assert 59 * z == m - sign && m < 59;
  }

  lemma OddHour(q: nat, m: nat, sign: nat)
    requires q < 3600 && sign < 2 && 59 * q + sign + 0x8000_0000 == 3600 * m
    ensures m == 596545 + sign
  {
    var w := m - 596523;
    assert 59 * q + 848 + sign == 3600 * w && 0 < w < 60;
    var z := q - 61 * w + 14;
    assert 59 * z == w - 22 - sign;
  }

  /** The four bytes from the second on: all but the lowest of the days, and the hours. */
  lemma DaysShifted(days: nat, h: nat, x: seq<byte>)
    requires |x| == 12 && h < 24 && x[..5] == ToLE(days, 4) + [h]
    ensures LE(x[1..5]) == days % TWO32 / 256 + TWO24 * h && x[0] == days % 256
  {
    hide ToLE;
    Pow256Values();
    assert ToLE(days, 4) == [days % 256] + ToLE(days / 256, 3) by { FirstDigit(days); }
    assert x[1..5] == x[..5][1..] == ToLE(days / 256, 3) + [h];
    LEConcat(ToLE(days / 256, 3), [h]);
    LEToLE(days / 256, 3);
    assert LE([h]) == h;
    Quotients(days);
  }

  lemma FirstDigit(v: nat)
    ensures ToLE(v, 4) == [v % 256] + ToLE(v / 256, 3)
  {}

  lemma Quotients(v: nat)
    ensures v / 256 % TWO24 == v % TWO32 / 256
  {
    var a, b := v / TWO32, v % TWO32;
    DivModUnique(v, 256, TWO24 * a + b / 256, b % 256);
    DivModUnique(v / 256, TWO24, a, b / 256);
  }

  /** Whatever stands around an encoded value, the decoder gives it back and stops behind it exactly when it is in
      range. */
  lemma ValueRoundTrip(t: ColType, v: Value, before: seq<byte>, after: seq<byte>)
    requires Suits(t, v) && Encode(t, v).Encoding? && End(t, v, before) < TWO64
    ensures Decoding(t, v, before, after) == Good((v, End(t, v, before))) <==> InRange(t, v)
  {
    hide BinaryRow.ParseCell, InRange, Decoding;
    if t.NullType? {
      NullBytes(t, v, before, after);
    } else if IsText(t) {
      TextBack(t, v, before, after);
    } else if BinaryRow.Width(t) > 0 {
      FixedBack(t, v, before, after);
    } else if t.Year? {
      YearValueBack(t, v, before, after);
    } else if t.Time? {
      TimeBack(v, before, after);
    } else {
      StampBack(t, v, before, after);
    }
  }

  /** A NULL-typed value has no bytes, but the decoder reads a length for it. */
  lemma NullBytes(t: ColType, v: Value, before: seq<byte>, after: seq<byte>)
    requires Suits(t, v) && t.NullType?
    ensures Decoding(t, v, before, after) != Good((v, End(t, v, before))) && !InRange(t, v)
  {
    hide MyLcb;
  }

  /* Rows. */

  /** Column j is null when its bit is set; its cell keeps what it held. Other columns hold values in range. */
  ghost predicate Sendable(types: seq<ColType>, vals: seq<Value>, bitmap: seq<byte>)
  {
    && |types| == |vals| && |bitmap| == BinaryRow.BitmapLen(|types|)
    && forall j :: 0 <= j < |types| ==>
         if BinaryRow.BitAt(bitmap, j + 2) then vals[j] == Initial(types[j])
         else Suits(types[j], vals[j]) && Encode(types[j], vals[j]).Encoding? && InRange(types[j], vals[j])
  }

  /** The encoded values from column `j` on, without the null ones. */
  ghost function EncodedFrom(types: seq<ColType>, vals: seq<Value>, bitmap: seq<byte>, j: nat): seq<byte>
    requires Sendable(types, vals, bitmap) && j <= |types|
    decreases |types| - j
  {
    if j == |types| then []
    else if BinaryRow.BitAt(bitmap, j + 2) then EncodedFrom(types, vals, bitmap, j + 1)
    else Encode(types[j], vals[j]).bytes + EncodedFrom(types, vals, bitmap, j + 1)
  }

  ghost function EncodeRow(types: seq<ColType>, vals: seq<Value>, bitmap: seq<byte>): seq<byte>
    requires Sendable(types, vals, bitmap)
  {
    [0] + bitmap + EncodedFrom(types, vals, bitmap, 0)
  }

  lemma {:induction false} CellsBack(types: seq<ColType>, vals: seq<Value>, bitmap: seq<byte>, j: nat, before: seq<byte>)
    requires Sendable(types, vals, bitmap) && j <= |types| && 1 + |bitmap| <= |before| && before[1..1 + |bitmap|] == bitmap
    requires |before| + |EncodedFrom(types, vals, bitmap, j)| < TWO64
    ensures var p := before + EncodedFrom(types, vals, bitmap, j);
            BinaryRow.ParseCells(types, p, |before|, vals[..j]) == Good(vals)
    decreases |types| - j
  {
    hide BinaryRow.ParseCell, BinaryRow.BitAt, Encode, InRange, Suits;
    var p := before + EncodedFrom(types, vals, bitmap, j);
    if j == |types| {
      assert vals[..j] == vals;
    } else {
      assert p[1..1 + |bitmap|] == bitmap;
      assert vals[..j] + [vals[j]] == vals[..j + 1];
      if BinaryRow.BitAt(bitmap, j + 2) {
        CellsBack(types, vals, bitmap, j + 1, before);
      } else {
        var x, rest := Encode(types[j], vals[j]).bytes, EncodedFrom(types, vals, bitmap, j + 1);
        ValueRoundTrip(types[j], vals[j], before, rest);
        assert p == before + x + rest;
        CellsBack(types, vals, bitmap, j + 1, before + x);
      }
    }
  }

  /** A binary row of encoded values is decoded to those values, and null columns are left alone: for every mix of
      types, for every set of null columns, and for as many columns as the decoder has room for. */
  lemma RowRoundTrip(types: seq<ColType>, vals: seq<Value>, bitmap: seq<byte>)
    requires Sendable(types, vals, bitmap) && |bitmap| <= BinaryRow.BITMAP_MAX && |EncodeRow(types, vals, bitmap)| < TWO64
    ensures BinaryRow.ParseRow(types, EncodeRow(types, vals, bitmap)) == Good(vals)
  {
    hide BinaryRow.ParseCells, EncodedFrom, BinaryRow.BitAt, Encode, InRange, Suits;
    var head := [0] + bitmap;
    assert head[1..1 + |bitmap|] == bitmap;
    CellsBack(types, vals, bitmap, 0, head);
    assert vals[..0] == [];
  }

  /* The encoder. */

  /** The first bytes of `out` have become `s`. */
  ghost predicate Wrote(was: seq<byte>, now: seq<byte>, at: nat, s: seq<byte>)
  {
    && |now| == |was| && at + |s| <= |now| && now[at..at + |s|] == s
    && forall k :: 0 <= k < |now| && !(at <= k < at + |s|) ==> now[k] == was[k]
  }

  lemma WroteMore(a: seq<byte>, b: seq<byte>, c: seq<byte>, at: nat, s: seq<byte>, s': seq<byte>)
    requires Wrote(a, b, at, s) && Wrote(b, c, at + |s|, s')
    ensures Wrote(a, c, at, s + s')
  {
    assert c[at..at + |s|] == b[at..at + |s|];
    assert c[at..at + |s + s'|] == c[at..at + |s|] + c[at + |s|..at + |s| + |s'|];
  }

  method PutByte(out: array<byte>, at: nat, v: int)
    requires at < out.Length
    modifies out
    ensures Wrote(old(out[..]), out[..], at, [v % 256])
  {
    out[at] := v % 256;
  }

  method PutLE(out: array<byte>, at: nat, v: int, n: nat)
    requires at + n <= out.Length
    modifies out
    ensures Wrote(old(out[..]), out[..], at, ToLE(v, n))
  {
    hide ToLE;
    StoreLE(out, at, v, n);
    assert out[..][at..at + n] == out[at..at + n];
  }

  /** Year, month and day at `at`. */
  method PutDate(out: array<byte>, at: nat, tm: Tm)
    requires at + 4 <= out.Length
    modifies out
    ensures Wrote(old(out[..]), out[..], at, DateBytes(tm))
  {
    hide ToLE, Wrote;
    ghost var a := out[..];
    PutLE(out, at, tm.year + 1900, 2);
    ghost var b := out[..];
    PutByte(out, at + 2, tm.mon + 1);
    ghost var c := out[..];
    WroteMore(a, b, c, at, ToLE(tm.year + 1900, 2), [(tm.mon + 1) % 256]);
    PutByte(out, at + 3, tm.mday);
    WroteMore(a, c, out[..], at, ToLE(tm.year + 1900, 2) + [(tm.mon + 1) % 256], [tm.mday % 256]);
    assert ToLE(tm.year + 1900, 2) + [(tm.mon + 1) % 256] + [tm.mday % 256] == DateBytes(tm);
  }

  /** What the encoder leaves: the whole encoding and its length, or -1 if there is none or no room for it; bytes behind
      the room it was given stay. */
  ghost predicate Stored(e: Encoded, was: seq<byte>, now: seq<byte>, len: nat, r: int)
  {
    && |now| == |was| && (forall k :: len <= k < |was| ==> now[k] == was[k])
    && (if e.Encoding? && |e.bytes| <= len then r == |e.bytes| && Wrote(was, now, 0, e.bytes) else r == -1)
  }

  /** `set_my_lcb` at the start of the output. */
  method PutPrefix(out: array<byte>, n: nat, len: nat) returns (r: int)
    requires len <= out.Length && n < TWO32 / 2
    modifies out
    ensures Stored(Prefix(n), old(out[..]), out[..], len, r)
  {
    hide ToLE;
    ghost var was := out[..];
    r := SetMyLcb(n, false, out, 0, len);
    assert was[0..len] == out[..][0..len] || r >= 0;
    PrefixSet(n, was[0..len]);
    if r >= 0 {
      var bytes := Prefix(n).bytes;
      assert out[0..len] == Put(was[0..len], bytes);
      forall k | 0 <= k < out.Length && !(0 <= k < |bytes|) ensures out[..][k] == was[k] {
        assert k < len ==> out[0..len][k] == was[0..len][k];
      }
      assert out[..][0..|bytes|] == out[0..len][..|bytes|] == bytes;
    }
  }

  lemma PrefixSet(n: nat, out: seq<byte>)
    requires n < TWO32 / 2
    ensures var p := Prefix(n);
            var (r, now) := SetLcb(n, false, out);
            if p.Encoding? && |p.bytes| <= |out| then r == |p.bytes| && now == Put(out, p.bytes) else r == -1 && now == out
  {
    hide ToLE;
  }

  method EncodeText(x: seq<byte>, out: array<byte>, len: nat) returns (l: int)
    requires len <= out.Length && |x| < TWO32 / 2
    modifies out
    ensures Stored(if Prefix(|x|).Encoding? then Encoding(Prefix(|x|).bytes + x) else Refused, old(out[..]), out[..], len, l)
  {
    hide Prefix;
    ghost var a := out[..];
    l := PutPrefix(out, |x|, len);
    if l < 0 {
      return -1;
    }
    var left := len - l;
    if left < |x| {
      return -1;
    }
    ghost var b := out[..];
    forall k | 0 <= k < |x| {
      out[l + k] := x[k];
    }
    assert out[..][l..l + |x|] == x;
    WroteMore(a, b, out[..], 0, Prefix(|x|).bytes, x);
    l := l + |x|;
  }

  /** The value `n` of a fixed size. */
  method EncodeFixed(v: int, n: nat, out: array<byte>, len: nat) returns (l: int)
    requires len <= out.Length
    modifies out
    ensures Stored(Encoding(ToLE(v, n)), old(out[..]), out[..], len, l)
  {
    hide ToLE;
    if len < n {
      return -1;
    }
    PutLE(out, 0, v, n);
    l := n;
  }

  method EncodeDate(tm: Tm, out: array<byte>, len: nat) returns (l: int)
    requires len <= out.Length
    modifies out
    ensures Stored(Encoding([4] + DateBytes(tm)), old(out[..]), out[..], len, l)
  {
    hide DateBytes;
    ghost var a := out[..];
    l := PutPrefix(out, 4, len);
    if l < 0 || len - l < 4 {
      return -1;
    }
    ghost var b := out[..];
    PutDate(out, l, tm);
    WroteMore(a, b, out[..], 0, [4], DateBytes(tm));
    l := l + 4;
  }

  /** Three bytes at `at`. */
  method PutThree(out: array<byte>, at: nat, x: int, y: int, z: int)
    requires at + 3 <= out.Length
    modifies out
    ensures Wrote(old(out[..]), out[..], at, [x % 256, y % 256, z % 256])
  {
    hide Wrote;
    ghost var a := out[..];
    PutByte(out, at, x);
    ghost var b := out[..];
    PutByte(out, at + 1, y);
    ghost var c := out[..];
    WroteMore(a, b, c, at, [x % 256], [y % 256]);
    PutByte(out, at + 2, z);
    WroteMore(a, c, out[..], at, [x % 256] + [y % 256], [z % 256]);
    assert [x % 256] + [y % 256] + [z % 256] == [x % 256, y % 256, z % 256];
  }

  method EncodeStamp(tm: Tm, out: array<byte>, len: nat) returns (l: int)
    requires len <= out.Length
    modifies out
    ensures Stored(Encoding([7] + DateBytes(tm) + [tm.hour % 256, tm.min % 256, tm.sec % 256]), old(out[..]), out[..], len, l)
  {
    hide DateBytes;
    ghost var a := out[..];
    l := PutPrefix(out, 7, len);
    if l < 0 || len - l < 7 {
      return -1;
    }
    ghost var b := out[..];
    PutDate(out, l, tm);
    ghost var c := out[..];
    WroteMore(a, b, c, 0, [7], DateBytes(tm));
    PutThree(out, l + 4, tm.hour, tm.min, tm.sec);
    WroteMore(a, c, out[..], 0, [7] + DateBytes(tm), [tm.hour % 256, tm.min % 256, tm.sec % 256]);
    l := l + 7;
  }

  method PutClock(out: array<byte>, at: nat, s: nat)
    requires at + 7 <= out.Length
    modifies out
    ensures Wrote(old(out[..]), out[..], at, ClockBytes(s))
  {
    hide ToLE, Wrote;
    ghost var a := out[..];
    PutLE(out, at, s / 86400, 4);
    ghost var b := out[..];
    var v := s % 86400;
    PutThree(out, at + 4, v / 3600, v % 3600 / 60, v % 3600 % 60);
    WroteMore(a, b, out[..], at, ToLE(s / 86400, 4), [v / 3600, v % 3600 / 60, v % 3600 % 60]);
  }

  method EncodeTime(sec: int, usec: int, out: array<byte>, len: nat) returns (l: int)
    requires len <= out.Length
    modifies out
    ensures Stored(Encoding(TimeBytes(sec, usec)), old(out[..]), out[..], len, l)
  {
    hide ToLE, ClockBytes;
    ghost var a := out[..];
    l := PutPrefix(out, 12, len);
    if l < 0 || len - l < 12 {
      return -1;
    }
    var s, sign := sec, 0;
    if sec < 0 {
      s, sign := -sec, 1;
    }
    ghost var b := out[..];
    PutClock(out, 1, s);
    PutSign(a, b, s, sign, usec, out);
    l := 13;
  }

  /** The part of a time behind the clock. */
  method PutSign(ghost a: seq<byte>, ghost b: seq<byte>, ghost s: nat, sign: int, usec: int, out: array<byte>)
    requires out.Length >= 13 && 0 <= sign <= 1 && Wrote(a, b, 0, [12]) && Wrote(b, out[..], 1, ClockBytes(s))
    modifies out
    ensures Wrote(a, out[..], 0, [12] + ClockBytes(s) + [sign] + ToLE(usec, 4))
  {
    hide ToLE, Wrote, ClockBytes;
    ghost var c := out[..];
    WroteMore(a, b, c, 0, [12], ClockBytes(s));
    PutByte(out, 8, sign);
    ghost var d := out[..];
    WroteMore(a, c, d, 0, [12] + ClockBytes(s), [sign]);
    PutLE(out, 9, usec, 4);
    WroteMore(a, d, out[..], 0, [12] + ClockBytes(s) + [sign], ToLE(usec, 4));
  }

  /** `mysac_encode_value` */
  method EncodeValue(t: ColType, v: Value, out: array<byte>, len: nat) returns (l: int)
    requires Suits(t, v) && len <= out.Length
    modifies out
    ensures Stored(Encode(t, v), old(out[..]), out[..], len, l)
  {
    hide ToLE, Stored, TimeBytes, DateBytes, Prefix;
    match t
    case NullType =>
      l := 0;
      NothingStored(out[..], len);
    case TinyBlob | MediumBlob | LongBlob | Blob | Bit | String | VarString | VarChar | NewDate =>
      l := EncodeText(v.text, out, len);
    case Tiny => l := EncodeFixed(v.small, 1, out, len);
    case Short => l := EncodeFixed(v.small, 2, out, len);
    case Int24 | Long => l := EncodeFixed(v.small, 4, out, len);
    case Decimal | NewDecimal | LongLong => l := EncodeFixed(v.big, 8, out, len);
    case Float => l := EncodeFixed(v.bits, 4, out, len);
    case Double => l := EncodeFixed(v.bits, 8, out, len);
    case Time => l := EncodeTime(v.sec, v.usec, out, len);
    case Year => l := EncodeFixed(v.tm.year + 1900, 2, out, len);
    case Timestamp | DateTime => l := EncodeStamp(v.tm, out, len);
    case Date => l := EncodeDate(v.tm, out, len);
    case _ =>
      l := -1;
      NothingStored(out[..], len);
  }

  lemma NothingStored(mem: seq<byte>, len: nat)
    ensures Stored(Encoding([]), mem, mem, len, 0) && Stored(Refused, mem, mem, len, -1)
  {}
}
