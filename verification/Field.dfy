/** `mysac_decode_field`: a pure parser of column descriptors (Protocol::ColumnDefinition41), and the in-place decoder. */
module Field {
  import opened Bytes
  import opened Lcb
  import opened Result
  import TextRow

  /** A MYSQL_FIELD. `strings` are catalog, db, table, org_table, name, org_name and def; def may be Null. */
  datatype Column<T> = Column(strings: seq<Cell<T>>, charset: nat, length: nat, typeCode: byte, flags: nat, decimals: nat)

  const NAMES := 6
  const FIXED := 13

  /** The length coded string at `i`: where its bytes begin, and how many they are. A null is an empty string here. */
  function StringAt(p: seq<byte>, i: nat): (r: Decoded<(nat, nat)>)
    requires i <= |p|
    ensures r.Good? ==> i < r.value.0 && r.value.0 + r.value.1 <= |p| && r.value.0 + r.value.1 < TWO64
    ensures r.Bad? ==> r.code >= BINFIELD_CORRUPT
  {
    match MyLcb(p[i..])
    case BadLcb => Bad(BAD_LCB)
    case Lcb(size, _, used) =>
      if i + used + size >= TWO64 then Unmodelled
      else if i + used + size > |p| then Bad(LEN_OVER_BUFFER)
      else Good((i + used, size))
  }

  /** The names from offset `i` on, behind those already `done`, and the offset behind the last one. */
  function ParseNames(p: seq<byte>, i: nat, done: seq<Cell<seq<byte>>>): (r: Decoded<(seq<Cell<seq<byte>>>, nat)>)
    requires i <= |p| && |done| <= NAMES
    ensures r.Good? ==> |r.value.0| == NAMES && r.value.1 <= |p|
    decreases NAMES - |done|
  {
    if |done| == NAMES then Good((done, i))
    else
      match StringAt(p, i)
      case Bad(code) => Bad(code)
      case Unmodelled => Unmodelled
      case Good((at, size)) => ParseNames(p, at + size, done + [Text(p[at..at + size])])
  }

  /** The fixed part at `i`, with the strings before and behind it. The flags are read as three bytes, so they carry
      the decimals in their third. */
  function FixedPart<T>(p: seq<byte>, i: nat, strings: seq<Cell<T>>): Column<T>
    requires i + FIXED <= |p|
  {
    Column(strings, LE(p[i + 1..i + 3]), LE(p[i + 3..i + 7]), p[i + 7], LE(p[i + 8..i + 11]), CharToUint(p[i + 10]))
  }

  function ParseField(p: seq<byte>): (r: Decoded<Column<seq<byte>>>)
    ensures r.Good? ==> |r.value.strings| == NAMES + 1
  {
    match ParseNames(p, 0, [])
    case Bad(code) => Bad(code)
    case Unmodelled => Unmodelled
    case Good((names, i)) =>
      if i + FIXED > |p| then Bad(LEN_OVER_BUFFER)
      else if i + FIXED == |p| then Good(FixedPart(p, i, names + [Null]))
      else
        match StringAt(p, i + FIXED)
        case Bad(code) => Bad(code)
        case Unmodelled => Unmodelled
        case Good((at, size)) => Good(FixedPart(p, i, names + [Text(p[at..at + size])]))
  }

  /** What a stored descriptor stands for. */
  ghost function LoadColumn(mem: seq<byte>, c: Column<Slice>): (r: Column<seq<byte>>)
    requires Terminated(mem, c.strings)
    ensures |r.strings| == |c.strings|
  {
    Column(LoadAll(mem, c.strings), c.charset, c.length, c.typeCode, c.flags, c.decimals)
  }

  /** Invariant of the decoder after some strings: bytes from `i` on are still those of the packet, and the strings
      `cells` are stored behind `at`, before them. */
  ghost predicate Storing(mem: seq<byte>, at: nat, p: seq<byte>, cells: seq<Cell<Slice>>, i: nat, wh: nat)
  {
    && wh <= i <= |p| && at + |p| <= |mem|
    && mem[at + i..at + |p|] == p[i..]
    && Packed(cells, at, at + wh) && Terminated(mem, cells)
  }

  /** One of the seven identical blocks that read a string and store it at `wh`; `lo` and `hi` bound the table entry,
      which gets its address and length. */
  method TakeString(buf: array<byte>, at: nat, len: nat, i: nat, wh: nat, lo: nat, hi: nat,
                    ghost p: seq<byte>, ghost cells: seq<Cell<Slice>>)
      returns (r: Decoded<Cell<Slice>>, i': nat, wh': nat)
    requires |p| == len && Storing(buf[..], at, p, cells, i, wh) && lo <= hi <= at
    requires !StringAt(p, i).Unmodelled?
    modifies buf
    ensures match StringAt(p, i)
            case Good((src, size)) =>
              && r.Good? && Storing(buf[..], at, p, cells + [r.value], i', wh') && i' == src + size
              && LoadAll(buf[..], cells + [r.value]) == LoadAll(old(buf[..]), cells) + [Text(p[src..src + size])]
            case Bad(code) => r == Bad(code)
            case Unmodelled => false
    ensures forall k :: 0 <= k < buf.Length && !(at <= k < at + len) && !(lo <= k < hi) ==> buf[k] == old(buf[k])
  {
    hide MyLcb;
    i', wh' := i, wh;
    ghost var mem := buf[..];
    assert buf[at + i..at + len] == mem[at + i..at + |p|] == p[i..];
    match MyLcb(buf[at + i..at + len])
    case BadLcb =>
      r := Bad(BAD_LCB);
    case Lcb(size, _, used) =>
      i' := i + used;
      if (i' + size) % TWO64 > len {
        return Bad(LEN_OVER_BUFFER), i', wh';
      }
      r := StoreString(buf, at, i, wh, i', size, lo, hi, p, cells);
      i', wh' := i' + size, wh + size + 1;
  }

  /** Moves the `size` bytes at offset `src` of the packet down to `wh`. */
  method StoreString(buf: array<byte>, at: nat, ghost i: nat, wh: nat, src: nat, size: nat, lo: nat, hi: nat,
                     ghost p: seq<byte>, ghost cells: seq<Cell<Slice>>)
      returns (r: Decoded<Cell<Slice>>)
    requires Storing(buf[..], at, p, cells, i, wh) && i < src && src + size <= |p| && lo <= hi <= at
    modifies buf
    ensures r.Good? && Storing(buf[..], at, p, cells + [r.value], src + size, wh + size + 1)
    ensures LoadAll(buf[..], cells + [r.value]) == LoadAll(old(buf[..]), cells) + [Text(p[src..src + size])]
    ensures forall k :: 0 <= k < buf.Length && !(at <= k < at + |p|) && !(lo <= k < hi) ==> buf[k] == old(buf[k])
  {
    hide Packed, Terminated, LoadAll;
    ghost var mem := buf[..];
    Unread(mem, at, p, cells, i, wh, src, src + size);
    var s := TextRow.KeepText(buf, at + wh, at + src, size);
    ghost var kept := buf[..];
    Scribble(buf, lo, hi);
    KeptText(mem, kept, buf[..], at + wh, at + src, size);
    r := Good(Text(s));
    StoringStep(mem, buf[..], at, p, cells, i, wh, s, src + size, wh + size + 1);
  }

  lemma Unread(mem: seq<byte>, at: nat, p: seq<byte>, cells: seq<Cell<Slice>>, i: nat, wh: nat, a: nat, b: nat)
    requires Storing(mem, at, p, cells, i, wh) && i <= a <= b <= |p|
    ensures mem[at + a..at + b] == p[a..b]
  {
    forall k | a <= k < b ensures mem[at + k] == p[k] {
      assert mem[at + i..at + |p|][k - i] == p[i..][k - i];
    }
  }

  lemma KeptText(mem: seq<byte>, kept: seq<byte>, now: seq<byte>, dst: nat, src: nat, n: nat)
    requires dst + n <= |kept| == |now| == |mem| && src + n <= |mem|
    requires kept[dst..dst + n] == mem[src..src + n]
    requires Agree(kept, now, dst, dst + n)
    ensures now[dst..dst + n] == mem[src..src + n]
  {
    AgreeSlice(kept, now, dst, dst + n);
  }

  lemma StoringStep(mem: seq<byte>, mem': seq<byte>, at: nat, p: seq<byte>, cells: seq<Cell<Slice>>,
                    i: nat, wh: nat, s: Slice, i': nat, wh': nat)
    requires Storing(mem, at, p, cells, i, wh) && |mem'| == |mem|
    requires i <= i' <= |p| && wh <= wh' <= i'
    requires Agree(mem, mem', at, at + wh) && Agree(mem, mem', at + i', at + |p|)
    requires Within(s, at + wh, at + wh') && mem'[s.at + s.len] == 0
    ensures Storing(mem', at, p, cells + [Text(s)], i', wh')
    ensures LoadAll(mem', cells + [Text(s)]) == LoadAll(mem, cells) + [Text(mem'[s.at..s.at + s.len])]
  {
    LoadStable(mem, mem', cells, at, at + wh);
    TextRow.LoadAllSnoc(mem', cells, Text(s));
    TextRow.PackedSnoc(cells, Text(s), at, at + wh, at + wh');
    AgreeSlice(mem, mem', at + i', at + |p|);
    SubSlice(mem, at + i, at + |p|, i' - i, |p| - i);
  }

  lemma NextName(p: seq<byte>, i: nat, done: seq<Cell<seq<byte>>>)
    requires i <= |p| && |done| < NAMES
    ensures match StringAt(p, i)
            case Bad(code) => ParseNames(p, i, done) == Bad(code)
            case Good((at, size)) => ParseNames(p, i, done) == ParseNames(p, at + size, done + [Text(p[at..at + size])])
            case Unmodelled => ParseNames(p, i, done).Unmodelled?
  {
    hide StringAt;
  }

  lemma NamesDone(p: seq<byte>, i: nat, done: seq<Cell<seq<byte>>>)
    requires i <= |p| && |done| == NAMES
    ensures ParseNames(p, i, done) == Good((done, i))
  {}

  lemma FixedAlike<T, U>(p: seq<byte>, i: nat, a: seq<Cell<T>>, b: seq<Cell<U>>)
    requires i + FIXED <= |p|
    ensures var (x, y) := (FixedPart(p, i, a), FixedPart(p, i, b));
            x.strings == a && y.strings == b && x.charset == y.charset && x.length == y.length
            && x.typeCode == y.typeCode && x.flags == y.flags && x.decimals == y.decimals
  {
    hide LE;
  }

  /** What follows the names. */
  lemma FieldParsed(p: seq<byte>, names: seq<Cell<seq<byte>>>, i: nat)
    requires ParseNames(p, 0, []) == Good((names, i)) && i + FIXED <= |p|
    ensures if i + FIXED == |p| then ParseField(p) == Good(FixedPart(p, i, names + [Null]))
            else match StringAt(p, i + FIXED)
                 case Bad(code) => ParseField(p) == Bad(code)
                 case Good((at, size)) => ParseField(p) == Good(FixedPart(p, i, names + [Text(p[at..at + size])]))
                 case Unmodelled => ParseField(p).Unmodelled?
  {
    hide StringAt, ParseNames, FixedPart;
  }

  lemma StoringSkip(mem: seq<byte>, mem': seq<byte>, at: nat, p: seq<byte>, cells: seq<Cell<Slice>>,
                    i: nat, wh: nat, i': nat)
    requires Storing(mem, at, p, cells, i, wh) && |mem'| == |mem| && i <= i' <= |p|
    requires Agree(mem, mem', at, at + |p|)
    ensures Storing(mem', at, p, cells, i', wh) && LoadAll(mem', cells) == LoadAll(mem, cells)
  {
    LoadStable(mem, mem', cells, at, at + wh);
    AgreeSlice(mem, mem', at + i', at + |p|);
    SubSlice(mem, at + i, at + |p|, i' - i, |p| - i);
  }

  /** The fixed bytes, read from the buffer behind the stored names. */
  method ReadFixed(buf: array<byte>, at: nat, len: nat, i: nat, strings: seq<Cell<Slice>>, ghost p: seq<byte>)
      returns (col: Column<Slice>)
    requires at + len <= buf.Length && |p| == len && i + FIXED <= len && buf[at + i..at + len] == p[i..]
    ensures col == FixedPart(p, i, strings)
  {
    forall k | i <= k < len ensures buf[at + k] == p[k] {
      assert buf[at + k] == buf[at + i..at + len][k - i] == p[i..][k - i];
    }
    assert buf[at + i + 1..at + i + 3] == p[i + 1..i + 3];
    assert buf[at + i + 3..at + i + 7] == p[i + 3..i + 7];
    assert buf[at + i + 8..at + i + 11] == p[i + 8..i + 11];
    col := Column(strings, LE(buf[at + i + 1..at + i + 3]), LE(buf[at + i + 3..at + i + 7]), buf[at + i + 7],
                  LE(buf[at + i + 8..at + i + 11]), CharToUint(buf[at + i + 10]));
  }

  /** `mysac_decode_field` on the packet of `len` bytes at `at`, whose table entry occupies `[lo, hi)`: the number of
      bytes the strings keep, or the negated error code. */
  method DecodeField(buf: array<byte>, at: nat, len: nat, lo: nat, hi: nat) returns (ret: int, col: Column<Slice>)
    requires lo <= hi <= at && at + len <= buf.Length
    requires !ParseField(buf[at..at + len]).Unmodelled?
    modifies buf
    ensures match ParseField(old(buf[at..at + len]))
            case Good(c) =>
              && 0 <= ret <= len
              && Packed(col.strings, at, at + ret) && Terminated(buf[..], col.strings) && LoadColumn(buf[..], col) == c
            case Bad(code) => ret == -code <= -BINFIELD_CORRUPT
            case Unmodelled => false
    ensures forall k :: 0 <= k < buf.Length && !(at <= k < at + len) && !(lo <= k < hi) ==> buf[k] == old(buf[k])
  {
    hide StringAt, LE, ParseNames, FixedPart;
    ghost var p := buf[at..at + len];
    var i: nat, wh: nat := 0, 0;
    var strings: seq<Cell<Slice>> := [];
    col := Column([], 0, 0, 0, 0, 0);
    assert LoadAll(buf[..], strings) == [];
    for j := 0 to NAMES
      invariant |strings| == j && Storing(buf[..], at, p, strings, i, wh)
      invariant ParseNames(p, i, LoadAll(buf[..], strings)) == ParseNames(p, 0, [])
      invariant forall k :: 0 <= k < buf.Length && !(at <= k < at + len) && !(lo <= k < hi) ==> buf[k] == old(buf[k])
    {
      NextName(p, i, LoadAll(buf[..], strings));
      var r, i', wh' := TakeString(buf, at, len, i, wh, lo, hi, p, strings);
      if r.Bad? {
        return -r.code, col;
      }
      i, wh, strings := i', wh', strings + [r.value];
    }
    ghost var names := LoadAll(buf[..], strings);
    NamesDone(p, i, names);
    if i + FIXED > len {
      return -LEN_OVER_BUFFER, col;
    }
    col := ReadFixed(buf, at, len, i, strings, p);
    assert col == FixedPart(p, i, strings);
    i := i + FIXED;
    ghost var mem := buf[..];
    Scribble(buf, lo, hi);
    StoringSkip(mem, buf[..], at, p, strings, i - FIXED, wh, i);
    if len - i > 0 {
      var r, i', wh' := TakeString(buf, at, len, i, wh, lo, hi, p, strings);
      if r.Bad? {
        return -r.code, col;
      }
      wh, col := wh', col.(strings := strings + [r.value]);
    } else {
      TextRow.LoadAllSnoc(buf[..], strings, Null);
      TextRow.PackedSnoc(strings, Null, at, at + wh, at + wh);
      col := col.(strings := strings + [Null]);
    }
    FieldParsed(p, names, i - FIXED);
    FixedAlike(p, i - FIXED, strings, col.strings);
    FixedAlike(p, i - FIXED, strings, LoadAll(buf[..], col.strings));
    ret := wh;
  }
}
