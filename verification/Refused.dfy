/** What ends a query instead of a result: texts that are no numbers, rows and answers that are cut short, and error
    packets. */
module Refused {
  import opened Bytes
  import opened Lcb
  import opened CText
  import opened Result
  import opened Field
  import opened Stream
  import opened Wire
  import TextRow

  /* Texts. */

  ghost predicate White(s: seq<byte>)
  {
    forall k :: 0 <= k < |s| ==> s[k] == 32 || 9 <= s[k] <= 13
  }

  ghost predicate Decimals(s: seq<byte>)
  {
    forall k :: 0 <= k < |s| ==> 48 <= s[k] <= 57
  }

  /** White space up to `w`, perhaps a sign, and digits from `d` on. */
  ghost predicate Shaped(c: seq<byte>, w: nat, d: nat)
  {
    && w <= d <= w + 1 && d < |c| && White(c[..w]) && Decimals(c[d..])
    && (d == w + 1 ==> c[w] == 43 || c[w] == 45)
  }

  /** An integer and nothing behind it. */
  ghost predicate Whole(c: seq<byte>)
  {
    c == [] || exists w, d :: Shaped(c, w, d)
  }

  lemma {:induction false} WhiteRun(s: seq<byte>, w: nat)
    requires w <= |s| && White(s[..w]) && (w < |s| ==> !IsSpace(s[w]))
    ensures Spaces(s) == w
  {
    if w > 0 {
      assert s[..w][0] == s[0];
      assert forall k :: 0 < k < w ==> s[..w][k] == s[1..][..w - 1][k - 1];
      WhiteRun(s[1..], w - 1);
    }
  }

  lemma {:induction false} SpacesWhite(s: seq<byte>)
    ensures White(s[..Spaces(s)])
  {
    if s != [] && IsSpace(s[0]) {
      SpacesWhite(s[1..]);
      assert forall k :: 0 < k < Spaces(s) ==> s[..Spaces(s)][k] == s[1..][..Spaces(s[1..])][k - 1];
    }
  }

  lemma {:induction false} DigitsDecimal(s: seq<byte>)
    ensures Decimals(s[..Digits(s)])
    ensures Decimals(s) ==> Digits(s) == |s|
  {
    if s != [] && IsDigit(s[0]) {
      DigitsDecimal(s[1..]);
      assert forall k :: 0 < k < Digits(s) ==> s[..Digits(s)][k] == s[1..][..Digits(s[1..])][k - 1];
    }
  }

  lemma ShapedRead(c: seq<byte>, w: nat, d: nat)
    requires Shaped(c, w, d)
    ensures StrTol(c) == (Clamp(if d > w && c[w] == 45 then -DigitsValue(c[d..]) else DigitsValue(c[d..])), |c|)
  {
    hide DigitsValue, Spaces, Digits;
    assert c[d..][0] == c[d];
    WhiteRun(c, w);
    DigitsDecimal(c[d..]);
    var s := c[w..];
    assert s[0] == c[w] && s[d - w..] == c[d..] && s[d - w..d - w + |c[d..]|] == c[d..];
  }

  /** `strtol` reads to the end of exactly these texts, and what it makes of them. */
  lemma WholeExactly(c: seq<byte>)
    ensures StrTol(c).1 == |c| <==> Whole(c)
  {
    hide DigitsValue, Spaces, Digits;
    var w := Spaces(c);
    var d := w + Sign(c[w..]);
    if StrTol(c).1 == |c| && c != [] {
      SpacesWhite(c);
      DigitsDecimal(c[d..]);
      assert c[w..][d - w..] == c[d..] && c[d..][..|c| - d] == c[d..];
      assert Shaped(c, w, d);
    }
    if c != [] && Whole(c) {
      var a, b :| Shaped(c, a, b);
      ShapedRead(c, a, b);
    }
  }

  /** The text from `i` to `j`, up to a terminator in it, is an integer. */
  ghost predicate WholeAt(x: seq<byte>, i: nat, j: nat)
    requires i <= j <= |x|
  {
    Whole(UpToNul(x[i..j]))
  }

  /** Exactly when a text is refused: an integer column with anything but an integer, and a time, date or timestamp of the
      right length with anything but an integer in the places of its numbers. Texts of other lengths, and years, are never
      refused. */
  ghost predicate Refuses(t: ColType, x: seq<byte>)
    requires !t.Float? && !t.Double?
  {
    match t
    case Tiny | Short | Int24 | Long | LongLong | Decimal | NewDecimal => !WholeAt(x, 0, |x|)
    case Time => |x| == 8 && !(WholeAt(x, 0, 2) && WholeAt(x, 3, 5) && WholeAt(x, 6, 8))
    case Date => |x| == 10 && !(WholeAt(x, 0, 4) && WholeAt(x, 5, 7) && WholeAt(x, 8, 10))
    case Timestamp | DateTime =>
      |x| == 19 && !(WholeAt(x, 0, 4) && WholeAt(x, 5, 7) && WholeAt(x, 8, 10)
                     && WholeAt(x, 11, 13) && WholeAt(x, 14, 16) && WholeAt(x, 17, 19))
    case _ => false
  }

  /** The error code of a column type. */
  function RefusalCode(t: ColType): int
  {
    match t
    case Float => 22
    case Double => 23
    case Time => 24
    case Timestamp | DateTime => 25
    case Date => 26
    case _ => 20
  }

  lemma RefusedExactly(t: ColType, x: seq<byte>)
    requires !t.Float? && !t.Double?
    ensures TextRow.ParseCell(t, x).Bad? <==> Refuses(t, x)
  {
    hide StrTol, UpToNul, Whole;
    TextRow.CellKinds(t, x);
    if TextRow.IsNumber(t) {
      WholeExactly(UpToNul(x));
      assert x[0..|x|] == x;
    } else if IsDated(t) && !t.Year? {
      PiecesWhole(t, x);
    }
  }

  lemma PiecesWhole(t: ColType, x: seq<byte>)
    requires IsDated(t) && !t.Year?
    ensures TextRow.ParseMoment<seq<byte>>(t, x).Bad? <==> Refuses(t, x)
  {
    hide StrTol, UpToNul, Whole;
    var starts, stops := TextRow.Starts(t), TextRow.Stops(t);
    if |x| == stops[|stops| - 1] {
      forall k | 0 <= k < |stops|
        ensures TextRow.Piece(x, starts, stops, k).1 == |UpToNul(x[starts[k]..stops[k]])| <==> WholeAt(x, starts[k], stops[k])
      {
        WholeExactly(UpToNul(x[starts[k]..stops[k]]));
      }
    }
  }

  lemma CodeOf(t: ColType, x: seq<byte>)
    ensures var r := TextRow.ParseCell(t, x); !r.Unmodelled? && (r.Bad? ==> r.code == RefusalCode(t))
  {
    hide StrTol, StrTod, UpToNul;
  }

  /** A text of another length leaves a zeroed `struct tm`. */
  lemma OtherLength(t: ColType, x: seq<byte>)
    requires t.Time? || t.Date? || t.Year? || t.Timestamp? || t.DateTime?
    requires |x| != (match t case Time => 8 case Date => 10 case Year => 4 case _ => 19)
    ensures TextRow.ParseCell(t, x) == Good(Moment(Tm(0, 0, 0, 0, 0, 0)))
  {}

  /* Rows. */

  /** The first text that is refused decides, whatever follows it. */
  lemma RowRefused(types: seq<ColType>, cells: seq<SqlCell>, x: seq<byte>, post: seq<byte>, code: int)
    requires |cells| < |types| && RowFits(types[..|cells|], cells) && CellsOk(cells) && |x| < TWO24
    requires TextRow.ParseCell(types[|cells|], x) == Bad(code) && |RowPayload(cells) + LcbString(x) + post| < TWO64
    ensures TextRow.ParseRow(types, RowPayload(cells) + LcbString(x) + post) == Bad(code)
  {
    hide TextRow.ParseCell, TextRow.ParseCells, RowPayload, LcbString, RowFits;
    var done := AfterCells(types, cells, LcbString(x) + post);
    assert RowPayload(cells) + (LcbString(x) + post) == RowPayload(cells) + LcbString(x) + post;
    StringRead(RowPayload(cells), x, post);
    NextRefused(types, RowPayload(cells) + LcbString(x) + post, |RowPayload(cells)|, done);
  }

  /** The parser behind the first cells of a row. */
  lemma AfterCells(types: seq<ColType>, cells: seq<SqlCell>, post: seq<byte>) returns (done: Row)
    requires |cells| <= |types| && RowFits(types[..|cells|], cells) && CellsOk(cells) && |RowPayload(cells) + post| < TWO64
    ensures |done| == |cells|
    ensures var p := RowPayload(cells) + post;
            TextRow.ParseRow(types, p) == TextRow.ParseCells(types, p, |RowPayload(cells)|, done)
  {
    hide TextRow.ParseCell, TextRow.ParseCells, RowPayload, Fits, ClientCell;
    var p := RowPayload(cells);
    assert [] + p + post == p + post && [] + p == p;
    assert Upcoming(types, [], |cells|) == types[..|cells|];
    CellsRead(types, [], cells, post, []);
    done := [] + ClientRow(Upcoming(types, [], |cells|), cells);
  }

  lemma NextRefused(types: seq<ColType>, p: seq<byte>, i: nat, done: Row)
    requires i <= |p| < TWO64 && |done| < |types|
    ensures match MyLcb(p[i..])
            case BadLcb => TextRow.ParseCells(types, p, i, done) == Bad(18)
            case Lcb(len, isNull, used) =>
              && (i + used + len > |p| && i + used + len < TWO64 ==> TextRow.ParseCells(types, p, i, done) == Bad(19))
              && (i + used + len <= |p| && !isNull ==>
                    var r := TextRow.ParseCell(types[|done|], p[i + used..i + used + len]);
                    r.Bad? ==> TextRow.ParseCells(types, p, i, done) == Bad(r.code))
  {
    hide TextRow.ParseCell, MyLcb;
  }

  /** A row that ends inside a length, or where one is missing, is refused with one code; a row that ends inside a text with
      another. */
  lemma RowCut(types: seq<ColType>, cells: seq<SqlCell>, x: seq<byte>, k: nat)
    requires |cells| < |types| && RowFits(types[..|cells|], cells) && CellsOk(cells) && |x| < TWO24
    requires k < |LcbString(x)| && |RowPayload(cells) + LcbString(x)| < TWO64
    ensures TextRow.ParseRow(types, RowPayload(cells) + LcbString(x)[..k]) == Bad(if k < |ServerLcb(|x|)| then 18 else 19)
  {
    hide TextRow.ParseCell, TextRow.ParseCells, RowPayload, RowFits, ServerLcb;
    var pre, rest := RowPayload(cells), LcbString(x)[..k];
    assert |pre + rest| < |pre + LcbString(x)|;
    LcbCut(|x|, x, k);
    var done := AfterCells(types, cells, rest);
    assert (pre + rest)[|pre|..] == rest;
    NextRefused(types, pre + rest, |pre|, done);
  }

  lemma LcbCut(v: nat, x: seq<byte>, k: nat)
    requires v == |x| < TWO24 && k < |LcbString(x)|
    ensures MyLcb(LcbString(x)[..k]) == if k < |ServerLcb(v)| then BadLcb else Lcb(v, false, |ServerLcb(v)|)
  {
    hide ToLE, LE;
    var s := LcbString(x)[..k];
    if k < |ServerLcb(v)| {
      assert k > 0 ==> s[0] == ServerLcb(v)[0];
    } else {
      assert s == ServerLcb(v) + x[..k - |ServerLcb(v)|];
      ServerLcbDecodes(v, x[..k - |ServerLcb(v)|]);
    }
  }

  /* Descriptors. */

  /** A null in place of a string is an empty string. */
  lemma NullString(p: seq<byte>, i: nat)
    requires i < |p| < TWO64 && p[i] == 251
    ensures var r := StringAt(p, i); r.Good? && r.value.0 == i + 1 && r.value.1 == 0
  {}

  /** A descriptor that ends in one of its names, in its fixed part, or in its default is refused, with the codes of a row
      that is cut; only one that ends in front of its default is taken for one without. */
  lemma ColumnCut(c: ServerColumn, j: nat, k: nat)
    requires ColumnOk(c) && |ColumnPayload(c)| < TWO64
    ensures j < NAMES && k < |LcbString(c.names[j])| ==>
      ParseField(Strings(c.names[..j]) + LcbString(c.names[j])[..k]) == Bad(if k < |ServerLcb(|c.names[j]|)| then 18 else 19)
    ensures k < FIXED ==> ParseField(Strings(c.names) + FixedBytes(c)[..k]) == Bad(19)
    ensures ParseField(Strings(c.names) + FixedBytes(c)) == Good(ClientColumn(c.(def := NoDefault)))
    ensures c.def.Default? && 0 < k < |LcbString(c.def.text)| ==>
      ParseField(Strings(c.names) + FixedBytes(c) + LcbString(c.def.text)[..k])
      == Bad(if k < |ServerLcb(|c.def.text|)| then 18 else 19)
  {
    hide ServerLcb, FixedBytes, LcbString, Strings, ParseField, ParseNames, StringAt;
    if j < NAMES && k < |LcbString(c.names[j])| { NameCut(c.names[..j], c.names[j], k); }
    if k < FIXED { FixedCut(c, k); }
    WithoutDefault(c);
    if c.def.Default? && 0 < k < |LcbString(c.def.text)| { DefaultCut(c, k); }
  }

  lemma StringCut(pre: seq<byte>, x: seq<byte>, k: nat)
    requires |x| < TWO24 && k < |LcbString(x)| && |pre + LcbString(x)| < TWO64
    ensures StringAt(pre + LcbString(x)[..k], |pre|) == Bad(if k < |ServerLcb(|x|)| then 18 else 19)
  {
    hide ServerLcb, MyLcb;
    LcbCut(|x|, x, k);
    assert (pre + LcbString(x)[..k])[|pre|..] == LcbString(x)[..k];
  }

  lemma NameCut(names: seq<seq<byte>>, x: seq<byte>, k: nat)
    requires |names| < NAMES && (forall j :: 0 <= j < |names| ==> |names[j]| < TWO24)
    requires |x| < TWO24 && k < |LcbString(x)|
    ensures ParseField(Strings(names) + LcbString(x)[..k]) == Bad(if k < |ServerLcb(|x|)| then 18 else 19)
  {
    hide ServerLcb, LcbString, ParseNames, StringAt, Strings;
    var pre, post := Strings(names), LcbString(x)[..k];
    StringsSize(names);
    LcbSize(x);
    assert [] + pre + post == pre + post && [] + pre == pre;
    NamesRead([], names, post, []);
    StringCut(pre, x, k);
    NextName(pre + post, |pre|, [] + Texts(names));
  }

  lemma LcbSize(x: seq<byte>)
    requires |x| < TWO24
    ensures |LcbString(x)| < 4 + TWO24
  {}

  lemma {:induction false} StringsSize(names: seq<seq<byte>>)
    requires forall j :: 0 <= j < |names| ==> |names[j]| < TWO24
    ensures |Strings(names)| <= |names| * (4 + TWO24)
  {
    hide LcbString;
    if names != [] {
      LcbSize(names[0]);
      StringsSize(names[1..]);
    }
  }

  lemma FixedCut(c: ServerColumn, k: nat)
    requires ColumnOk(c) && k < FIXED
    ensures ParseField(Strings(c.names) + FixedBytes(c)[..k]) == Bad(19)
  {
    hide FixedBytes, ParseNames, StringAt, Strings;
    var pre, post := Strings(c.names), FixedBytes(c)[..k];
    StringsSize(c.names);
    assert [] + pre + post == pre + post && [] + pre == pre;
    NamesRead([], c.names, post, []);
    NamesDone(pre + post, |pre|, [] + Texts(c.names));
  }

  lemma WithoutDefault(c: ServerColumn)
    requires ColumnOk(c)
    ensures ParseField(Strings(c.names) + FixedBytes(c)) == Good(ClientColumn(c.(def := NoDefault)))
  {
    hide FixedBytes, Strings, ParseField, ClientColumn;
    var bare := c.(def := NoDefault);
    StringsSize(c.names);
    assert FixedBytes(bare) == FixedBytes(c) by { FixedAlone(c); }
    assert ColumnPayload(bare) == Strings(c.names) + FixedBytes(c);
    ColumnRoundTrip(bare);
  }

  lemma FixedAlone(c: ServerColumn)
    ensures FixedBytes(c.(def := NoDefault)) == FixedBytes(c)
  {}

  lemma DefaultCut(c: ServerColumn, k: nat)
    requires ColumnOk(c) && c.def.Default? && 0 < k < |LcbString(c.def.text)|
    ensures ParseField(Strings(c.names) + FixedBytes(c) + LcbString(c.def.text)[..k])
         == Bad(if k < |ServerLcb(|c.def.text|)| then 18 else 19)
  {
    hide FixedBytes, ParseNames, StringAt, Strings, ServerLcb, LcbString, FixedPart, ParseField;
    var pre, post := Strings(c.names), FixedBytes(c) + LcbString(c.def.text)[..k];
    StringsSize(c.names);
    LcbSize(c.def.text);
    var p := pre + FixedBytes(c) + LcbString(c.def.text)[..k];
    assert [] + pre + post == p && [] + pre == pre;
    NamesRead([], c.names, post, []);
    NamesDone(p, |pre|, [] + Texts(c.names));
    StringCut(pre + FixedBytes(c), c.def.text, k);
    FieldParsed(p, [] + Texts(c.names), |pre|);
  }

  /* Answers. */

  /** More bytes change nothing about the packets that are there. */
  lemma PacketStays(s: seq<byte>, t: seq<byte>, p: nat)
    ensures Unreadable(s, p) ==> Unreadable(s + t, p)
    ensures HasPacket(s, p) ==>
      && HasPacket(s + t, p) && LengthAt(s + t, p) == LengthAt(s, p) && Payload(s + t, p) == Payload(s, p)
      && Next(s + t, p) == Next(s, p) && (Unreadable(s + t, p) <==> Unreadable(s, p))
  {
    hide LE;
    if p + HEADER <= |s| {
      assert (s + t)[p..p + 3] == s[p..p + 3];
    }
  }

  lemma {:induction false} RowsFinal(s: seq<byte>, t: seq<byte>, p: nat, binary: bool, columns: seq<Column<seq<byte>>>,
                                     rows: seq<Row>)
    requires !ParseRows(s, p, binary, columns, rows).NeedMore?
    ensures ParseRows(s + t, p, binary, columns, rows) == ParseRows(s, p, binary, columns, rows)
    ensures ParseRows(s, p, binary, columns, rows).Complete? ==> ParseRows(s, p, binary, columns, rows).end <= |s|
    decreases |s| - p
  {
    hide DecodeRow, Payload, LengthAt, Status;
    PacketStays(s, t, p);
    if !Unreadable(s, p) && HasPacket(s, p) && Classify(Payload(s, p)).DataPacket? {
      var d := DecodeRow(binary, Types(columns), Payload(s, p));
      if d.Good? { RowsFinal(s, t, Next(s, p), binary, columns, rows + [d.value]); }
    }
  }

  lemma MarkerFinal(s: seq<byte>, t: seq<byte>, p: nat, binary: bool, columns: seq<Column<seq<byte>>>)
    requires !ParseMarker(s, p, binary, columns).NeedMore?
    ensures ParseMarker(s + t, p, binary, columns) == ParseMarker(s, p, binary, columns)
    ensures ParseMarker(s, p, binary, columns).Complete? ==> ParseMarker(s, p, binary, columns).end <= |s|
  {
    hide ParseRows, Payload, LengthAt;
    PacketStays(s, t, p);
    if !Unreadable(s, p) && Classify(Payload(s, p)).EndPacket? {
      RowsFinal(s, t, Next(s, p), binary, columns, []);
    }
  }

  lemma {:induction false} ColumnsFinal(s: seq<byte>, t: seq<byte>, p: nat, binary: bool, n: nat,
                                        columns: seq<Column<seq<byte>>>)
    requires |columns| <= n && !ParseColumns(s, p, binary, n, columns).NeedMore?
    ensures ParseColumns(s + t, p, binary, n, columns) == ParseColumns(s, p, binary, n, columns)
    ensures ParseColumns(s, p, binary, n, columns).Complete? ==> ParseColumns(s, p, binary, n, columns).end <= |s|
    decreases n - |columns|
  {
    hide ParseMarker, ParseField, Payload, LengthAt;
    PacketStays(s, t, p);
    if |columns| == n {
      MarkerFinal(s, t, p, binary, columns);
    } else if !Unreadable(s, p) && Classify(Payload(s, p)).DataPacket? {
      var d := ParseField(Payload(s, p));
      if d.Good? { ColumnsFinal(s, t, Next(s, p), binary, n, columns + [d.value]); }
    }
  }

  /** What has been made of an answer stays so, whatever the server sends afterwards; and it rests on bytes that were
      there. */
  lemma AnswerFinal(s: seq<byte>, t: seq<byte>, p: nat, binary: bool)
    requires !ParseResult(s, p, binary).NeedMore?
    ensures ParseResult(s + t, p, binary) == ParseResult(s, p, binary)
    ensures ParseResult(s, p, binary).Complete? ==> ParseResult(s, p, binary).end <= |s|
  {
    hide ParseColumns, Payload, LengthAt;
    PacketStays(s, t, p);
    if !Unreadable(s, p) && Classify(Payload(s, p)).DataPacket? && Payload(s, p)[0] != 0 {
      ColumnsFinal(s, t, Next(s, p), binary, Payload(s, p)[0], []);
    }
  }

  /** So the receiver waits behind every part of a result set that is not all of it. */
  lemma AnswerWaits(s: seq<byte>, t: seq<byte>, p: nat, binary: bool)
    requires ParseResult(s + t, p, binary).Complete? && ParseResult(s + t, p, binary).end > |s|
    ensures ParseResult(s, p, binary) == NeedMore
  {
    hide ParseResult;
    if !ParseResult(s, p, binary).NeedMore? { AnswerFinal(s, t, p, binary); }
  }

  /** Packets, and nothing else, from `p` to the end. */
  ghost predicate Packets(s: seq<byte>, p: nat)
    decreases |s| - p
  {
    p == |s| || (HasPacket(s, p) && Packets(s, Next(s, p)))
  }

  /** The code for an error packet. */
  function ErrorCode(x: seq<byte>): int { if |x| > 3 then 7 else 1 }

  lemma {:induction false} RowsError(s: seq<byte>, t: seq<byte>, p: nat, binary: bool, columns: seq<Column<seq<byte>>>,
                                     rows: seq<Row>)
    requires Packets(s, p) && ParseRows(s, p, binary, columns, rows).NeedMore? && ErrorAt(s + t, |s|)
    ensures ParseRows(s + t, p, binary, columns, rows) == Failed(ErrorCode(Payload(s + t, |s|)))
    decreases |s| - p
  {
    hide DecodeRow, Payload, LengthAt, Status;
    PacketStays(s, t, p);
    if p < |s| {
      var d := DecodeRow(binary, Types(columns), Payload(s, p));
      if d.Good? { RowsError(s, t, Next(s, p), binary, columns, rows + [d.value]); }
    }
  }

  ghost predicate ErrorAt(s: seq<byte>, p: nat)
  {
    HasPacket(s, p) && LengthAt(s, p) > 0 && Payload(s, p)[0] == 255
  }

  lemma MarkerError(s: seq<byte>, t: seq<byte>, p: nat, binary: bool, columns: seq<Column<seq<byte>>>)
    requires Packets(s, p) && ParseMarker(s, p, binary, columns).NeedMore? && ErrorAt(s + t, |s|)
    ensures ParseMarker(s + t, p, binary, columns) == Failed(ErrorCode(Payload(s + t, |s|)))
  {
    hide ParseRows, Payload, LengthAt;
    PacketStays(s, t, p);
    if p < |s| { RowsError(s, t, Next(s, p), binary, columns, []); }
  }

  lemma {:induction false} ColumnsError(s: seq<byte>, t: seq<byte>, p: nat, binary: bool, n: nat,
                                        columns: seq<Column<seq<byte>>>)
    requires |columns| <= n && Packets(s, p) && ParseColumns(s, p, binary, n, columns).NeedMore? && ErrorAt(s + t, |s|)
    ensures ParseColumns(s + t, p, binary, n, columns) == Failed(ErrorCode(Payload(s + t, |s|)))
    decreases n - |columns|
  {
    hide ParseMarker, ParseField, Payload, LengthAt;
    PacketStays(s, t, p);
    if |columns| == n {
      MarkerError(s, t, p, binary, columns);
    } else if p < |s| {
      var d := ParseField(Payload(s, p));
      if d.Good? { ColumnsError(s, t, Next(s, p), binary, n, columns + [d.value]); }
    }
  }

  lemma AnswerError(s: seq<byte>, t: seq<byte>, p: nat, binary: bool)
    requires Packets(s, p) && ParseResult(s, p, binary).NeedMore? && ErrorAt(s + t, |s|)
    ensures ParseResult(s + t, p, binary) == Failed(ErrorCode(Payload(s + t, |s|)))
  {
    hide ParseColumns, Payload, LengthAt;
    PacketStays(s, t, p);
    if p < |s| { ColumnsError(s, t, Next(s, p), binary, Payload(s, p)[0], []); }
  }

  /** The first `k` bytes of what the server would send, cut behind one of its packets, or before the first. */
  ghost predicate Begun(pre: seq<byte>, body: seq<byte>, k: nat)
  {
    k < |body| && Packets(pre + body[..k], |pre|)
  }

  /** An error packet in place of any packet of a result set ends the query with the error. */
  lemma ErrorEnds(pre: seq<byte>, cs: seq<ServerColumn>, rows: seq<seq<SqlCell>>, first: Marker, last: Marker, k: nat, id: nat,
                  x: seq<byte>, post: seq<byte>)
    requires ColumnsOk(cs) && RowsOk(Types(ClientColumns(cs)), rows) && !Multi(last.status) && last.status < TWO16
    requires Begun(pre, ResultSet(cs, rows, first, last), k) && 0 < |x| < TWO24 && x[0] == 255
    ensures var s := pre + ResultSet(cs, rows, first, last)[..k] + Wire.Packet(id, x) + post;
            ParseResult(s, |pre|, false) == Failed(ErrorCode(x))
  {
    hide ParseResult, ResultSet, RowFits, RowPayload, ColumnPayload, Types, ClientColumns, ClientRows, Wire.Packet, Payload,
         LengthAt;
    var body := ResultSet(cs, rows, first, last);
    var s := pre + body[..k];
    ResultRoundTrip(pre, cs, rows, first, last, []);
    assert pre + body + [] == s + body[k..];
    AnswerWaits(s, body[k..], |pre|, false);
    PacketRead(s, id, x, post);
    assert s + Wire.Packet(id, x) + post == s + (Wire.Packet(id, x) + post);
    AnswerError(s, Wire.Packet(id, x) + post, |pre|, false);
  }

  /** An end marker in place of the column count or of a descriptor, and anything but one in place of the marker behind the
      descriptors, is a protocol error. */
  lemma Misplaced(s: seq<byte>, p: nat, binary: bool, n: nat, columns: seq<Column<seq<byte>>>)
    requires HasPacket(s, p) && LengthAt(s, p) >= 5
    ensures Payload(s, p)[0] == 254 ==> ParseResult(s, p, binary) == Failed(1)
    ensures Payload(s, p)[0] == 254 && |columns| < n ==> ParseColumns(s, p, binary, n, columns) == Failed(1)
    ensures Payload(s, p)[0] < 254 && |columns| == n ==> ParseColumns(s, p, binary, n, columns) == Failed(1)
  {
    hide Payload, LengthAt, ParseField, ParseRows;
  }

  /** A row with a text that is refused, behind any rows that are not, ends the query with the code of its column. */
  lemma BadRowEnds(pre: seq<byte>, cs: seq<ServerColumn>, rows: seq<seq<SqlCell>>, first: Marker, id: nat, x: seq<byte>,
                   post: seq<byte>, code: int)
    requires ColumnsOk(cs) && RowsOk(Types(ClientColumns(cs)), rows) && 0 < |x| < TWO24 && x[0] < 254
    requires TextRow.ParseRow(Types(ClientColumns(cs)), x) == Bad(code)
    ensures var head := Wire.Packet(1, [|cs|]) + ColumnPart(2, cs, first) + RowPackets(3 + |cs|, rows);
            ParseResult(pre + head + Wire.Packet(id, x) + post, |pre|, false) == Failed(code)
  {
    hide ParseRows, ParseColumns, Payload, LengthAt, ColumnPart, RowPackets, ClientColumns, ClientRows, Wire.Packet, RowFits,
         RowPayload, TextRow.ParseRow;
    var columns := ClientColumns(cs);
    var count, cols, sent := Wire.Packet(1, [|cs|]), ColumnPart(2, cs, first), RowPackets(3 + |cs|, rows);
    var rest := Wire.Packet(id, x) + post;
    var s := pre + (count + cols + sent) + Wire.Packet(id, x) + post;
    assert s == pre + count + (cols + (sent + rest));
    PacketRead(pre, 1, [|cs|], cols + (sent + rest));
    CountRead(s, |pre|, |cs|);
    assert s == (pre + count) + cols + (sent + rest);
    ColumnsRead(pre + count, 2, cs, [], |cs|, first, sent + rest);
    assert [] + columns == columns;
    assert s == (pre + count + cols) + sent + rest;
    RowsRead(pre + count + cols, 3 + |cs|, columns, rows, [], rest);
    assert s == (pre + count + cols + sent) + Wire.Packet(id, x) + post;
    PacketRead(pre + count + cols + sent, id, x, post);
    RowEnds(s, |pre + count + cols + sent|, columns, [] + ClientRows(Types(columns), rows), code);
  }

  lemma RowEnds(s: seq<byte>, p: nat, columns: seq<Column<seq<byte>>>, done: seq<Row>, code: int)
    requires HasPacket(s, p) && LengthAt(s, p) > 0 && Payload(s, p)[0] < 254
    requires TextRow.ParseRow(Types(columns), Payload(s, p)) == Bad(code)
    ensures ParseRows(s, p, false, columns, done) == Failed(code)
  {
    hide LengthAt, Payload, TextRow.ParseRow;
  }
}
