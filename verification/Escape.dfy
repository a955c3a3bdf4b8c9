/** `esql_string_escape`, and the scanners of SQL string literals it writes for. */
module Escape {
  import opened Bytes

  const QUOTE: byte := 39
  const BACKSLASH: byte := 92
  const DOUBLE_QUOTE: byte := 34
  const NEWLINE: byte := 10
  const RETURN: byte := 13

  datatype Scanned = Literal(value: seq<byte>, next: nat) | Unfinished

  /** The characters written for `c`, when backslashes may or may not be used. */
  function Piece(backslashes: bool, c: byte): (r: seq<byte>)
    ensures 1 <= |r| <= 2 && (c != 0 ==> 0 !in r)
  {
    if !backslashes then (if c == QUOTE then [QUOTE, QUOTE] else [c])
    else if c == QUOTE || c == BACKSLASH || c == DOUBLE_QUOTE then [BACKSLASH, c]
    else if c == NEWLINE then [BACKSLASH, 110]
    else if c == RETURN then [BACKSLASH, 114]
    else if c == 0 then [BACKSLASH, 48]
    else [c]
  }

  function Escaped(backslashes: bool, s: seq<byte>): seq<byte>
  {
    if s == [] then [] else Piece(backslashes, s[0]) + Escaped(backslashes, s[1..])
  }

  /** What a backslash and `c` mean in a literal (section 9.1.1 of the MySQL Reference Manual). */
  function Unescape(c: byte): seq<byte>
  {
    match c
    case 48 => [0]
    case 98 => [8]
    case 110 => [NEWLINE]
    case 114 => [RETURN]
    case 116 => [9]
    case 90 => [26]
    case 37 => [BACKSLASH, c]
    case 95 => [BACKSLASH, c]
    case _ => [c]
  }

  /** Scans a literal from behind its opening quote at `i`, with the value scanned so far. Two quotes stand for one
      (section 5.3 of ISO/IEC 9075-2); where backslashes are allowed they escape the next character. */
  function Scan(backslashes: bool, quote: byte, text: seq<byte>, i: nat, value: seq<byte>): Scanned
    requires i <= |text|
    decreases |text| - i
  {
    if i == |text| then Unfinished
    else if text[i] == quote then
      if i + 1 < |text| && text[i + 1] == quote then Scan(backslashes, quote, text, i + 2, value + [quote])
      else Literal(value, i + 1)
    else if backslashes && text[i] == BACKSLASH then
      if i + 1 < |text| then Scan(backslashes, quote, text, i + 2, value + Unescape(text[i + 1])) else Unfinished
    else Scan(backslashes, quote, text, i + 1, value + [text[i]])
  }

  /** MySQL takes literals in single and in double quotes (section 9.1.1 of its Reference Manual), others in single quotes. */
  predicate Quotes(backslashes: bool, quote: byte)
  {
    quote == 39 || (backslashes && quote == 34)
  }

  /** Scanning goes on behind the text written for one character, with that character read. */
  lemma ScanPiece(backslashes: bool, quote: byte, text: seq<byte>, i: nat, value: seq<byte>, c: byte)
    requires Quotes(backslashes, quote) && i + |Piece(backslashes, c)| < |text|
    requires text[i..i + |Piece(backslashes, c)|] == Piece(backslashes, c)
    ensures Scan(backslashes, quote, text, i, value) == Scan(backslashes, quote, text, i + |Piece(backslashes, c)|, value + [c])
  {
    var piece := Piece(backslashes, c);
    assert text[i] == piece[0] && (|piece| == 2 ==> text[i + 1] == piece[1]);
  }

  lemma {:induction false} ScanEscaped(backslashes: bool, quote: byte, before: seq<byte>, s: seq<byte>, after: seq<byte>,
                                       value: seq<byte>)
    requires Quotes(backslashes, quote) && after != [] && after[0] == quote && (|after| > 1 ==> after[1] != quote)
    ensures var text := before + Escaped(backslashes, s) + after;
            Scan(backslashes, quote, text, |before|, value) == Literal(value + s, |before| + |Escaped(backslashes, s)| + 1)
    decreases |s|
  {
    hide Piece, Unescape;
    var text := before + Escaped(backslashes, s) + after;
    if s == [] {
      assert text == before + after && text[|before|] == quote;
      assert |after| > 1 ==> text[|before| + 1] == after[1];
      assert value + s == value;
    } else {
      hide Scan;
      var piece, rest := Piece(backslashes, s[0]), Escaped(backslashes, s[1..]);
      Split(before, piece, rest, after);
      ScanPiece(backslashes, quote, text, |before|, value, s[0]);
      ScanEscaped(backslashes, quote, before + piece, s[1..], after, value + [s[0]]);
      assert value + [s[0]] + s[1..] == value + s;
    }
  }

  lemma Split(before: seq<byte>, piece: seq<byte>, rest: seq<byte>, after: seq<byte>)
    ensures var text := before + (piece + rest) + after;
            text == (before + piece) + rest + after && text[|before|..|before| + |piece|] == piece
  {}

  /** A string, escaped and put between quotes, is scanned as one literal with the value of that string, whatever SQL
      text stands around it; nothing in it ends the literal early, and nothing is left of it. */
  lemma LiteralRoundTrip(backslashes: bool, quote: byte, before: seq<byte>, s: seq<byte>, after: seq<byte>)
    requires Quotes(backslashes, quote) && (after != [] ==> after[0] != quote)
    ensures var literal := [quote] + Escaped(backslashes, s) + [quote];
            Scan(backslashes, quote, before + literal + after, |before| + 1, []) == Literal(s, |before| + |literal|)
  {
    hide Scan, Escaped;
    ScanEscaped(backslashes, quote, before + [quote], s, [quote] + after, []);
    Regroup(before, quote, Escaped(backslashes, s), after);
    assert [] + s == s;
  }

  lemma Regroup(before: seq<byte>, quote: byte, s: seq<byte>, after: seq<byte>)
    ensures before + ([quote] + s + [quote]) + after == (before + [quote]) + s + ([quote] + after)
  {}

  /** The characters with an escape: the quote, and with backslashes also the backslash, the double quote, the two line
      ends and the terminator. */
  predicate Special(backslashes: bool, c: byte)
  {
    c == 39 || (backslashes && (c == 92 || c == 34 || c == 10 || c == 13 || c == 0))
  }

  function Specials(backslashes: bool, s: seq<byte>): nat
  {
    if s == [] then 0 else (if Special(backslashes, s[0]) then 1 else 0) + Specials(backslashes, s[1..])
  }

  /** Each of them takes one character more, and nothing else is escaped: a text stays what it is if and only if it has none
      of them. */
  lemma {:induction false} PlainText(backslashes: bool, s: seq<byte>)
    ensures |Escaped(backslashes, s)| == |s| + Specials(backslashes, s)
    ensures Escaped(backslashes, s) == s <==> forall k :: 0 <= k < |s| ==> !Special(backslashes, s[k])
    ensures Specials(backslashes, s) == 0 <==> forall k :: 0 <= k < |s| ==> !Special(backslashes, s[k])
  {
    if s != [] {
      PlainText(backslashes, s[1..]);
      assert s == [s[0]] + s[1..];
      assert forall k :: 0 < k < |s| ==> s[k] == s[1..][k - 1];
    }
  }

  /** With backslashes the escaped text of any bytes is one line without a terminator. */
  lemma {:induction false} OneLine(s: seq<byte>)
    ensures 0 !in Escaped(true, s) && 10 !in Escaped(true, s) && 13 !in Escaped(true, s)
  {
    if s != [] { OneLine(s[1..]); }
  }

  /** The output takes at most twice the room, and holds no terminator. */
  lemma {:induction false} EscapedSize(backslashes: bool, s: seq<byte>)
    ensures |s| <= |Escaped(backslashes, s)| <= 2 * |s|
    ensures 0 !in s ==> 0 !in Escaped(backslashes, s)
  {
    if s != [] { EscapedSize(backslashes, s[1..]); }
  }

  lemma {:induction false} EscapedSnoc(backslashes: bool, s: seq<byte>, c: byte)
    ensures Escaped(backslashes, s + [c]) == Escaped(backslashes, s) + Piece(backslashes, c)
  {
    if s == [] {
      assert [c][1..] == [];
    } else {
      assert (s + [c])[1..] == s[1..] + [c];
      EscapedSnoc(backslashes, s[1..], c);
    }
  }

  /** The text of the C string at `a`. */
  ghost predicate CString(a: seq<byte>, s: seq<byte>)
  {
    |s| < |a| && a[..|s|] == s && a[|s|] == 0 && 0 !in s
  }

  /** `esql_string_escape` */
  method StringEscape(backslashes: bool, s: array?<byte>, ghost text: seq<byte>) returns (ret: array?<byte>)
    requires s != null ==> CString(s[..], text)
    ensures s == null <==> ret == null
    ensures ret != null ==> fresh(ret) && CString(ret[..], Escaped(backslashes, text)) && ret.Length == 2 * |text| + 1
  {
    if s == null {
      return null;
    }
    var len := StrLen(s, text);
    ret := new byte[len * 2 + 1];
    var rp := 0;
    if !backslashes {
      rp := DoubleQuotes(s, text, ret);
    } else {
      rp := Backslashes(s, text, ret);
    }
    EscapedSize(backslashes, text);
    ret[rp] := 0;
    assert ret[..][..rp] == ret[..rp];
  }

  /** The loop for databases that take no backslashes. */
  method DoubleQuotes(s: array<byte>, ghost text: seq<byte>, ret: array<byte>) returns (rp: nat)
    requires CString(s[..], text) && ret.Length == 2 * |text| + 1 && ret != s
    modifies ret
    ensures rp == |Escaped(false, text)| < ret.Length && ret[..rp] == Escaped(false, text)
  {
    var p := 0;
    rp := 0;
    while s[p] != 0
      invariant p <= |text| && s[..] == old(s[..]) && Written(false, text, p, ret[..], rp)
      decreases |text| - p
    {
      At(s, text, p);
      WriteNext(false, text, p);
      if s[p] == QUOTE {
        ret[rp] := QUOTE;
        rp := rp + 1;
      }
      ret[rp] := s[p];
      p, rp := p + 1, rp + 1;
    }
    At(s, text, p);
    assert text[..p] == text;
    EscapedSize(false, text);
  }

  /** The loop for databases that take backslashes. */
  method Backslashes(s: array<byte>, ghost text: seq<byte>, ret: array<byte>) returns (rp: nat)
    requires CString(s[..], text) && ret.Length == 2 * |text| + 1 && ret != s
    modifies ret
    ensures rp == |Escaped(true, text)| < ret.Length && ret[..rp] == Escaped(true, text)
  {
    var p := 0;
    rp := 0;
    assert Escaped(true, text[..0]) == [];
    hide Escaped;
    while s[p] != 0
      invariant p <= |text| && s[..] == old(s[..]) && Written(true, text, p, ret[..], rp)
      decreases |text| - p
    {
      At(s, text, p);
      WriteNext(true, text, p);
      var e: byte := 0;
      match s[p] {
        case 39 => e := s[p];
        case 92 => e := s[p];
        case 34 => e := s[p];
        case 10 => e := 110;
        case 13 => e := 114;
        case _ =>
      }
      if e == 0 {
        ret[rp] := s[p];
      } else {
        ret[rp] := BACKSLASH;
        rp := rp + 1;
        ret[rp] := e;
      }
      p, rp := p + 1, rp + 1;
    }
    At(s, text, p);
    assert text[..p] == text;
    EscapedSize(true, text);
  }

  /** The first `p` characters have been escaped into the first `rp` of the output. */
  ghost predicate Written(backslashes: bool, text: seq<byte>, p: nat, out: seq<byte>, rp: nat)
    requires p <= |text|
  {
    && |out| == 2 * |text| + 1 && rp <= 2 * p
    && rp == |Escaped(backslashes, text[..p])| && out[..rp] == Escaped(backslashes, text[..p])
  }

  lemma WriteNext(backslashes: bool, text: seq<byte>, p: nat)
    requires p < |text|
    ensures Escaped(backslashes, text[..p + 1]) == Escaped(backslashes, text[..p]) + Piece(backslashes, text[p])
  {
    assert text[..p + 1] == text[..p] + [text[p]];
    EscapedSnoc(backslashes, text[..p], text[p]);
  }

  /** The character at `p` of a C string. */
  lemma At(s: array<byte>, text: seq<byte>, p: nat)
    requires CString(s[..], text) && p <= |text|
    ensures s[p] != 0 ==> p < |text| && s[p] == text[p]
    ensures s[p] == 0 ==> p == |text|
  {
    assert s[..][p] == s[p] && s[..][|text|] == s[|text|];
    if p < |text| {
      assert text[p] == s[..][..|text|][p] && text[p] in text;
    }
  }

  method StrLen(s: array<byte>, ghost text: seq<byte>) returns (n: nat)
    requires CString(s[..], text)
    ensures n == |text|
  {
    n := 0;
    while s[n] != 0
      invariant n <= |text|
      decreases |text| - n
    {
      At(s, text, n);
      n := n + 1;
    }
    At(s, text, n);
  }
}
