# Esskyuehl: receive engine, scheduler and codecs

Proofs about two parts of the Esskyuehl database library and the value codecs around them.

**The MySAC receive engine** reads a MySQL result set from a non-blocking socket into one growable block of memory. The
same memory takes the packets and, below them, what is made of them: descriptors and rows are decoded in place, with a
write pointer chasing a read pointer.

- `Bytes`, `Lcb`, `CText`, `Result`: byte order, length coded integers, the C conversions, cells and columns.
- `TextRow`, `BinaryRow`, `Field`: pure parsers of rows and descriptors, and the in-place decoders that refine them.
- `Stream`: what a whole byte stream says. `Arena`: what is stored where. `Net`: a socket that delivers any part of
  what is asked for, and stalls finitely often.
- `Engine`: the resumable state machine, as a class whose methods update the fields of the C structures. Its invariant
  says that the stream read on from here, behind what is stored, still means what the whole stream meant. `RunQuery`
  is the loop around it.
- `Wire`, `SqlText`, `BinaryWire`, `EndToEnd`: the server's side, written without the client's parsers, so that the rows
  a server sends are the rows a client gets. `Refused`: what ends a query instead, from a text that is no number to an
  error packet.
- `Moves`: what a move of the block does to the cells. `Relocation`: the same block in absolute addresses, for the case
  that `realloc` moves it.
- `Layers`: the offset layer and the block in step. `Encode`: the encoder of binary values.

**The Esql scheduler** hands queries to one connection or to a pool, moves queued queries to members that become idle,
and routes results and callbacks by query id.

- `Scheduler`: every function as a step over a value, with backend, clock, descriptors and callbacks as an arbitrary
  environment. `Ledger` and `Safety`: what every run keeps. `Delivery` and `Hooks`: which queries are reported, and to
  which callbacks. `Admission`: which are accepted. `Effects`: what each call and step does to each member, without
  the loops and recursion of the specification. `Esql`: the library's objects with their three parallel lists, whose methods do exactly what
  the steps say.
- `Escape`: `esql_string_escape`.

`dafny verify dfyconfig.toml` checks everything.

## How the two layers of the engine fit

`Engine` calls a pointer by its offset from the start of the arena, so growing the arena changes no offset.
`Relocation` shows when that is right. After a move every pointer of the result, the column table and the row list is
the moved one, for every result. For the words of the cells it depends: the switch of `mysac_extend_res` leaves byte
cells of BIT, NEWDATE and NULL columns behind, and adds the offset to the seconds of a decoded TIME. `Moves` says what
that makes of a cell, and both layers use it: where `Relocation.Block.ExtendRes` relocates a picture,
`Engine.Mysac.ExtendRes` replaces the rows by what the move makes of them. `shift` tells by how much `realloc` moves
the block each time it grows, and may be any function. The picture is one `Relocation` can draw whenever the engine
extends, because the engine's invariant (`Sound`) says so in every state: cells fit their columns, and the last row
may be waiting for its packet or for some of its struct tms. So what `RunQuery` and `Select` say of descriptors, rows
and their order holds for every arena, and what they say of cells is exact about the moves. `Layers` takes both layers
through the stores of the engine together, one by one, and through the client's calls afterwards. On a table without
these four column types, or in an arena that stays where it is, the cells are those that were sent. `cr` is moved
without a test, so a NULL cursor does not stay NULL; in `mysac_send_query` it is set again before the rows, and set to
NULL at their end.

## What is taken as given

- Sizes are those of a 64-bit system: MYSQL_FIELD 128, MYSAC_ROWS 32, MYSAC_ROW 16, struct tm 56, MYSAC_RES 112 bytes.
  The proofs use that they are positive and that the list heads lie in front of the arena.
- Stores into C structures inside the arena are typed fields beside it, and the bytes they occupy become arbitrary.
- Query ids wrap after 2^32 - 1. What the scheduler promises about ids and data is stated for runs in which no new id
  is still outstanding when it is given (`unique`), which holds for the first 2^32 - 1 queries. A bound on the number
  of outstanding ids alone would not do: one old query is enough when the counter comes round.
- In one turn of the event loop callbacks submit finitely many queries; a callback that always submits another one,
  answered at once, would recur for ever.

## What came out differently from what one might expect

- `set_my_lcb` refuses 65535, and writes four value bytes for the nine-byte form.
- `mysac_encode_value` writes the sign of a TIME where the decoder and the protocol do not have it, so no TIME of a second
  or more comes back (`Encode.TimeBack`); a binary TIME of length 0, which is how a server sends zero, leaves the pointer
  in the cell (`Encode.ServerTime`), and a text TIME with a sign or three digits of hours does so, too
  (`SqlText.TimeKept`).
- `uint3korr` reads the decimals of a descriptor into the third byte of its flags.
- A query that fails without a callback, on a descriptor without an error, is dropped without any notice
  (`Delivery.OneDropped`); a connection that fails calls the connect callback.
- `esql_disconnect` leaves `current` as it is, so a query in flight is lost when the connection is made again
  (`Delivery.OneLost`). These two are the only ways not to be told (`Delivery.ReportedExactly`).
- No error of its members makes a pool say that it is not connected, only `esql_disconnect` on the pool does
  (`Admission.ApplyConnected`).
- A pool gives a query to its first idle member, connected or not, so one closed member can make it refuse everything
  (`Admission.OneShutsOut`).
- A DECIMAL with digits behind the point ends the whole query with an error in the text protocol
  (`SqlText.FractionRefused`). In the binary one the decoder loses its place behind DECIMAL, ENUM, SET and GEOMETRY
  values (`BinaryWire.Misread`), and reads a zero date from the four bytes that follow it (`BinaryWire.ZeroStamp`).
- UNSIGNED values beyond the signed width of their cell wrap, and those beyond a `long` become the nearest one
  (`SqlText.IntegerKept`).
- Rebalancing takes queries only from the head of a queue, so one behind a database change can wait beside an idle
  member. Without database changes it cannot, whether or not members are connected.

## Model

| member | source | states |
|---|---|---|
| Bytes.LEToLE | src/modules/mysql/mysac/mysac_utils.h:92-116 | `to_my_*` then `uint*korr` gives the value modulo 256^n, for negative values too |
| Bytes.SLEToLE | src/modules/mysql/mysac/mysac_utils.h:92-116 | a signed integer that fits in n bytes is read back as it was |
| Bytes.LittleEndian | src/modules/mysql/mysac/mysac_utils.h:92-116 | the four-byte form in powers of 256: the lowest byte comes first |
| Bytes.Memmove | src/modules/mysql/mysac/mysac_decode_row.c:318 | bytes moved down over themselves arrive as they were before the move, and nothing else changes |
| Lcb.TrailingBytesIgnored | src/modules/mysql/mysac/mysac_utils.h:128-173 | decoding a length depends on the bytes it uses only, so concatenated encodings split in one way |
| Lcb.SetMyLcb | src/modules/mysql/mysac/mysac_utils.h:185-241 | the bytes, the returned length and the refusals of `set_my_lcb`, for every number and every room |
| Lcb.StoreLE | src/modules/mysql/mysac/mysac_utils.h:92-116 | the shifting stores of `to_my_2/3/4/8` are the little-endian digits; nothing else is written |
| Lcb.EncodeDecodeExactly | src/modules/mysql/mysac/mysac_utils.h:128-241 | `my_lcb` gives back value and size written by `set_my_lcb` if and only if the value is below 2^24 and not 65535, or the four bytes the nine-byte form leaves alone held its upper half already |
| Lcb.NullRoundTrip | src/modules/mysql/mysac/mysac_utils.h:166-193 | a null length is one byte and is decoded as null |
| Lcb.ServerLcbDecodes | src/modules/mysql/mysac/mysac_utils.h:128-173 | what a server sends as length-encoded integer below 2^24 is decoded to it whatever follows, 65535 included |
| Lcb.EveryForm | src/modules/mysql/mysac/mysac_utils.h:128-164 | every number in the two, three or eight byte form, the shortest or not, is decoded whatever follows, and refused when a byte is missing |
| CText.StrTolIntText | src/modules/mysql/mysac/mysac_decode_row.c:325-346 | the decimal text of every integer converts to it, or to the nearest `long`, and is read to its end |
| CText.StrTolPadded | src/modules/mysql/mysac/mysac_decode_row.c:366-445 | zero-padded fields of times and dates convert to their numbers |
| CText.StrTodFloat | src/modules/mysql/mysac/mysac_decode_row.c:348-364 | the text of every decimal number, with sign, point and exponent or without, converts to that number and is read to its end |
| CText.FloatMeans | src/modules/mysql/mysac/mysac_decode_row.c:348-364 | that number is the whole part plus the digits behind the point over a power of ten, times the power of ten of the exponent |
| TextRow.KeepText | src/modules/mysql/mysac/mysac_decode_row.c:305-323 | a byte cell is moved down over bytes that have been read, and terminated; everything from the next length on is untouched |
| TextRow.ConvertNumber | src/modules/mysql/mysac/mysac_decode_row.c:325-364 | the terminator put behind the number is taken away again, on success the packet is as before, and the number or error code is that of the text |
| TextRow.ConvertMoment | src/modules/mysql/mysac/mysac_decode_row.c:366-445 | times, dates and years with terminators written over their separators give the value of the original text; bytes behind the cell are restored |
| TextRow.DecodeColumn | src/modules/mysql/mysac/mysac_decode_row.c:284-454 | one column step keeps: unread bytes are those of the packet, cells so far are terminated, disjoint, below the write pointer, and equal to the parsed ones |
| TextRow.DecodeStringRow | src/modules/mysql/mysac/mysac_decode_row.c:269-458 | in-place decoding gives exactly the cells of a pure parse of the original packet, or its error code; cells are packed and terminated within the returned size, which is at most the packet; memory outside packet and row tables is unchanged |
| Field.DecodeField | src/modules/mysql/mysac/mysac_decode_field.c:30-209 | in-place decoding of a descriptor gives the pure parse of the original bytes, with strings packed, terminated and disjoint within the returned size, which is at most the packet |
| Field.ReadFixed | src/modules/mysql/mysac/mysac_decode_field.c:156-184 | the 13 fixed bytes are read unmodified behind the compacted names |
| BinaryRow.WalkTest | src/modules/mysql/mysac/mysac_decode_row.c:55-260 | after any number of columns of shifting the bit and moving the pointer when it leaves the byte, `*null_ptr & bit` is not zero exactly when bit (j + 2) mod 8 of byte (j + 2) / 8 is set |
| BinaryRow.DecodeCell | src/modules/mysql/mysac/mysac_decode_row.c:84-249 | one binary cell decoded in place, times included, is the parsed one, and the write pointer stays behind the read offset |
| BinaryRow.DecodeBinaryRow | src/modules/mysql/mysac/mysac_decode_row.c:43-262 | in-place decoding of binary rows refines a pure parse of the original packet, null columns keep their cells |
| BinaryWire.CellRead | src/modules/mysql/mysac/mysac_decode_row.c:84-249 | every value a server sends in a binary row (Binary Protocol Value), signed, UNSIGNED, floating, text, year, time or date, is read where it begins and to its end, as what the client holds for it |
| BinaryWire.StampRead | src/modules/mysql/mysac/mysac_decode_row.c:202-243 | DATE, DATETIME and TIMESTAMP in the forms of 4, 7 and 11 bytes, written out byte by byte, are read as that year, month, day, hour, minute and second, and the decoder stops behind the value |
| BinaryWire.ZeroStamp | src/modules/mysql/mysac/mysac_decode_row.c:202-243 | a zero date, which a server sends without bytes, comes back if and only if four zeros happen to follow it |
| BinaryWire.Misread | src/modules/mysql/mysac/mysac_decode_row.c:128-249 | behind a DECIMAL the decoder stands only if its length and text are eight bytes, and behind an ENUM, SET or GEOMETRY value never |
| BinaryWire.CellCut | src/modules/mysql/mysac/mysac_decode_row.c:84-249 | every value but a year that is cut short at any byte is refused |
| BinaryWire.NullFound | src/modules/mysql/mysac/mysac_decode_row.c:57-82 | the bitmap of a server says of every column up to the 126th whether it is null |
| BinaryWire.RowRoundTrip | src/modules/mysql/mysac/mysac_decode_row.c:43-262 | every binary row a server sends, with any columns null, is decoded to its cells, for as many columns as the decoder has room for |
| Arena.ObjectsDisjoint | src/modules/mysql/mysac/mysac_query.c:253-301 | table entries, column strings, row headers, cells, lengths, struct tms and row strings never share a byte and lie below the read position |
| Arena.SurvivesAbove | src/modules/mysql/mysac/mysac_query.c:338-467 | whatever is written at or above the end of the stored objects leaves all stored strings and values as they were |
| Arena.SurvivesLink | src/modules/mysql/mysac/mysac_query.c:357-359 | the store of `list_add_tail` into the last row's header leaves them as they were, too |
| Arena.RowArrives | src/modules/mysql/mysac/mysac_query.c:460-467 | decoding a row behind the stored rows stores it and keeps the others |
| Arena.ColumnArrives | src/modules/mysql/mysac/mysac_query.c:293-301 | decoding a descriptor behind the stored ones stores it and keeps the others |
| Net.Socket.Read | src/modules/mysql/mysac/mysac_decode_respbloc.c:54-65 | delivers one to count of the next bytes, whichever number, or none for now |
| Net.Socket.Write | src/modules/mysql/mysac/mysac_query.c:124-133 | accepts some first part of the bytes, or none for now |
| Engine.Mysac.ExtendRes | src/modules/mysql/mysac/mysac_memory.c:39-183 | an extension keeps all bytes, and the stored rows become those of the moved picture; it is only called for pictures `Relocation.Block.ExtendRes` relocates: while descriptors are read, while a row waits for its packet, and between two struct tms of a row that is already in the list |
| Engine.Mysac.Reserve | src/modules/mysql/mysac/mysac_decode_respbloc.c:50-52 | extending until there is room ends, keeps all bytes, makes of the rows what every extension on the way makes of them, and fails only if the arena may not grow |
| Engine.Mysac.ReadHeader | src/modules/mysql/mysac/mysac_decode_respbloc.c:42-75 | the four header bytes arrive in any number of pieces and give length and sequence number |
| Engine.Mysac.ReadBody | src/modules/mysql/mysac/mysac_decode_respbloc.c:78-99 | the payload arrives in any number of pieces, over the header, and is the stream's |
| Engine.Mysac.DecodeRespbloc | src/modules/mysql/mysac/mysac_decode_respbloc.c:31-190 | resumed any number of times, the reader waits until the packet is complete and then holds its payload, classified, and its sequence number; it has consumed 4 + length bytes; every wait is for a reason |
| Engine.Mysac.ClassifyPacket | src/modules/mysql/mysac/mysac_decode_respbloc.c:101-187 | error, end and data packets, with status, warnings and error code |
| Engine.Mysac.AllocRow | src/modules/mysql/mysac/mysac_query.c:338-387 | header, tables and struct tm blocks are reserved above all that is stored, which survives but for what the moves do to it, and the accounting holds; the row is in the list before its struct tms are reserved, also when that fails |
| Engine.Mysac.LinkRow | src/modules/mysql/mysac/mysac_query.c:356-367 | the row is linked with its tables and nothing in its cells, and the list can still be drawn |
| Engine.Mysac.AllocTms | src/modules/mysql/mysac/mysac_query.c:369-414 | one zeroed block per dated column, disjoint, even when the arena grows and moves between two of them with the row half reserved |
| Engine.Mysac.DecodePacket | src/modules/mysql/mysac/mysac_query.c:441-496 | a row packet becomes the next stored row, or the error of the stream; the rest of its bytes is free again; the terminator behind it lies inside the arena |
| Engine.Mysac.RowPacket | src/modules/mysql/mysac/mysac_query.c:419-467 | in the row phase the accounting is slack by the packets that are never given back, so a row packet ends before the arena does; and its row is the next of the stream |
| Engine.Mysac.UnlinkLast | src/modules/mysql/mysac/mysac_query.c:430-438 | at the end marker the row allocated in advance leaves the list, and the list holds a row for exactly the rows of the stream; the status left announces no other result set |
| Engine.Mysac.RecvRows | src/modules/mysql/mysac/mysac_query.c:338-496 | the row loop ends in a complete result, the stream's error, a wait with the invariant, or an arena that may not grow |
| Engine.Mysac.RecvColumns | src/modules/mysql/mysac/mysac_query.c:265-308 | the descriptor loop ends with all descriptors of the stream stored, the stream's error, a wait with the invariant, or an arena that may not grow |
| Engine.Mysac.RecvEof | src/modules/mysql/mysac/mysac_query.c:315-331 | the marker behind the descriptors leads to the row phase with nothing lost; any other packet is the stream's error |
| Engine.Mysac.RecvColCount | src/modules/mysql/mysac/mysac_query.c:158-257 | the column count and the zeroed column table, after which the stream reads on as the descriptors; or the stream's error; the status left by the answer before does not announce another result set, so its branch is not taken |
| Engine.Mysac.SendRequest | src/modules/mysql/mysac/mysac_query.c:124-137 | the request leaves in any number of writes, once and whole, before anything is read |
| Engine.Mysac.SendQuery | src/modules/mysql/mysac/mysac_query.c:110-521 | one call of the resumable state machine, from every state it can be in: it goes on where it stopped, and every answer means what it says |
| Engine.CommandRead | src/modules/mysql/mysac/mysac_query.c:27-78 | what is sent is one packet of number 0 that a server reads back as the command byte and the query, and nothing is left over |
| Engine.Mysac.SetQuery | src/modules/mysql/mysac/mysac_query.c:27-78 | the request is one packet that carries the query and nothing else, as a server reads it, or is refused when it does not fit |
| Engine.RunQuery | src/modules/mysql/mysac/mysac_query.c:110-521 | for every cut of the stream into reads, every stall, every arena size, every positive extension and every move of the block the call sequence ends, with 0 and the descriptors and one row per row of the stream, in order, or with the stream's error; the rows are those of the stream if no column is BIT, NEWDATE, NULL or TIME or the block never moves; only an arena that may not grow ends it otherwise |
| Engine.SafeRows | src/modules/mysql/mysac/mysac_memory.c:125-165 | no cell is damaged if all columns are carried along, or if the block never moves |
| Moves.CarriedExactly | src/modules/mysql/mysac/mysac_memory.c:125-165 | the column types none of whose cells any moves can damage are exactly those other than BIT, NEWDATE, NULL and TIME |
| Moves.LeftAfter | src/modules/mysql/mysac/mysac_memory.c:146-164 | over any moves a pointer that is left behind is lost if and only if one of them moves the block |
| Moves.TimeAfter | src/modules/mysql/mysac/mysac_memory.c:125-145 | over moves upwards a positive time only gets later, and does with the first of them |
| Moves.RepresentsMoved | src/modules/mysql/mysac/mysac_memory.c:112-170 | a result that stands for descriptors and rows stands, after any moves, for the same descriptors and what the moves make of the rows |
| Moves.RowFits | src/modules/mysql/mysac/mysac_decode_row.c:43-458 | every row a decoder accepts, text or binary, holds cells of its column types |
| Stream.MultiBit | src/modules/mysql/mysac/mysac_query.c:430-438 | another result set is announced by bit 0x0008 of the status |
| Wire.CodeKnown | src/modules/mysql/mysac/mysac_decode_field.c:172-173 | of the 27 type codes of the protocol (Protocol::ColumnType), listed from type to code, each is known to the client as its type, and every other code as none |
| Wire.DecimalsKept | src/modules/mysql/mysac/mysac_decode_field.c:175-181 | decimals up to 127 come back as they were sent, others as 2^32 - 256 more; flags come back below their third byte, which holds the decimals |
| Wire.RowRoundTrip | src/modules/mysql/mysac/mysac_decode_row.c:269-458 | the cells of every row a server sends (Text Resultset Row) are parsed to those cells |
| Wire.ColumnRoundTrip | src/modules/mysql/mysac/mysac_decode_field.c:30-209 | every descriptor a server sends (Protocol::ColumnDefinition41) is parsed to it, except that the decimals appear in the third byte of the flags |
| Wire.ResultRoundTrip | src/modules/mysql/mysac/mysac_query.c:158-496 | for every column list, every list of rows and every two end markers, the parse of the server's bytes is exactly that result set and consumes exactly those bytes |
| SqlText.ValueRoundTrip | src/modules/mysql/mysac/mysac_decode_row.c:298-451 | the text of every string, integer, floating number, year, date, timestamp and time in its column's range, UNSIGNED ones included, converts to what the client keeps of it, which is that value but for what the next rows name; ENUM, SET and GEOMETRY cells are left alone |
| SqlText.IntegerKept | src/modules/mysql/mysac/mysac_decode_row.c:325-346 | an integer comes back if and only if it fits the signed width of its cell, 32 or 64 bits |
| SqlText.TimeKept | src/modules/mysql/mysac/mysac_decode_row.c:366-384 | of all times from -838 to 838 hours the text is read if and only if it has eight bytes, which is when it is not negative and below 100 hours; the cell of any other keeps its zero struct tm |
| SqlText.FractionRefused | src/modules/mysql/mysac/mysac_decode_row.c:325-346 | a DECIMAL with digits behind the point is refused |
| Refused.WholeExactly | src/modules/mysql/mysac/mysac_decode_row.c:325-346 | a text is converted to its end if and only if it is empty or is white space, perhaps a sign, and digits |
| Refused.RefusedExactly | src/modules/mysql/mysac/mysac_decode_row.c:325-451 | a text is refused if and only if its column is an integer or DECIMAL and it is not such a text, or its column is a time, date or timestamp, its length is right, and one of the places of the numbers is not such a text |
| Refused.CodeOf | src/modules/mysql/mysac/mysac_decode_row.c:325-451 | and with which error code, for every column type |
| Refused.OtherLength | src/modules/mysql/mysac/mysac_decode_row.c:366-445 | a time, date, timestamp or year of another length leaves the zeroed struct tm |
| Refused.RowRefused | src/modules/mysql/mysac/mysac_decode_row.c:269-458 | the first text that is refused decides about its row, whatever follows |
| Refused.RowCut | src/modules/mysql/mysac/mysac_decode_row.c:284-296 | a row that ends inside a length is refused with one code and one that ends inside a text with another |
| Refused.ColumnCut | src/modules/mysql/mysac/mysac_decode_field.c:70-204 | a descriptor that is cut in a name, in its fixed part or in its default is refused; one that ends in front of its default is one without |
| Refused.AnswerFinal | src/modules/mysql/mysac/mysac_query.c:158-496 | for any two byte strings, what has been made of the first stays so when the second follows it, and rests on bytes of the first |
| Refused.AnswerWaits | src/modules/mysql/mysac/mysac_decode_respbloc.c:54-99 | so behind every proper part of a result set the receiver waits for more |
| Refused.ErrorEnds | src/modules/mysql/mysac/mysac_decode_respbloc.c:104-131 | an error packet in place of any packet of a result set ends the query with the server's error |
| Refused.Misplaced | src/modules/mysql/mysac/mysac_query.c:158-331 | an end marker where a count or descriptor belongs, and anything else where the marker belongs, is a protocol error |
| Refused.BadRowEnds | src/modules/mysql/mysac/mysac_query.c:441-467 | a row that is refused, behind any rows that are not, ends the query with its code |
| EndToEnd.Select | src/modules/mysql/mysac/mysac_query.c:65-521 | one packet that carries the query is sent, and reading its answer leaves the descriptors the server sent and a row for every row, in order, for every cut of its bytes, every arena size and every move, and consumes exactly its answer; the cells are those sent if no column is BIT, NEWDATE, NULL or TIME or the arena never moves, and else what the moves have left of them |
| EndToEnd.SelectTable | src/modules/mysql/mysac/mysac_query.c:65-521 | for a table of typed values, sent with the type codes of the protocol, the client gets the table of what it keeps of these values, cell by cell, under the same condition |
| EndToEnd.SelectError | src/modules/mysql/mysac/mysac_decode_respbloc.c:104-131 | when the server sends an error packet in place of any packet of its answer, the query ends with that error |
| EndToEnd.Loses | src/modules/mysql/mysac/mysac_memory.c:125-165 | a concrete failure for each of the four types: twenty rows in an arena that begins with nothing and moves whenever it grows, after which the first time is later, or the first cell's pointer is lost; so the condition above leaves out no column type |
| EndToEnd.ExtendedSince | src/modules/mysql/mysac/mysac_query.c:338-365 | when the rows take more memory than was ever free, the block has been extended since the first of them was stored |
| EndToEnd.TypedRowArrives | src/modules/mysql/mysac/mysac_decode_row.c:269-458 | a row of typed values, nulls among them, is for the client the row of what it keeps of those values |
| EndToEnd.TableArrives | src/modules/mysql/mysac/mysac_decode_row.c:269-458 | so is a table of them, in order |
| Relocation.WordMoves | src/modules/mysql/mysac/mysac_memory.c:125-165 | a cell's word still stands for the cell after a move if and only if it is no byte cell of a BIT, NEWDATE or NULL column and no decoded non-zero time |
| Relocation.BitRowDangles | src/modules/mysql/mysac/mysac_memory.c:146-164 | a concrete failure: a result with one BIT row, extended to wherever the block moves, shows its row with a pointer to where it was |
| Relocation.CircleAt | src/modules/mysql/mysac/mysac_utils.h:34-88 | the neighbours of an entry of a circular list, and that they are in it |
| Relocation.CircleGrows | src/modules/mysql/mysac/mysac_utils.h:45-65 | an entry added before the head is the last one, in both directions |
| Relocation.CircleShrinks | src/modules/mysql/mysac/mysac_utils.h:74-88 | a removed entry leaves the others in their order, in both directions |
| Relocation.CopyShows | src/modules/mysql/mysac/mysac_memory.c:55-79 | what `realloc` copies shows the same with the old pointers |
| Relocation.WordsMove | src/modules/mysql/mysac/mysac_memory.c:125-165 | all words of all rows survive a move if and only if every cell does |
| Relocation.Block.ListAddTail | src/modules/mysql/mysac/mysac_utils.h:62-65 | the stores of `list_add_tail` put the entry at the end of the circle; links of other lists stay |
| Relocation.Block.ListDel | src/modules/mysql/mysac/mysac_utils.h:86-88 | the stores of `list_del` take the entry out of the circle; links of other lists stay |
| Relocation.Block.InitRes | src/modules/mysql/mysac/mysac_res.c:23-49 | a new result shows nothing, and its two lists are empty circles |
| Relocation.Block.StoreNames | src/modules/mysql/mysac/mysac_query.c:293-301 | the pointers of the next descriptor make the picture one with that descriptor |
| Relocation.Block.AddRow | src/modules/mysql/mysac/mysac_query.c:356-367 | `list_add_tail` and the stores of the table pointers make the picture one with that row at the end of the circle; its cells hold whatever the memory held |
| Relocation.Block.StoreTm | src/modules/mysql/mysac/mysac_query.c:383-386 | the pointer to a struct tm makes the picture one with that struct tm, and the words still stand for the cells |
| Relocation.Block.StoreCells | src/modules/mysql/mysac/mysac_query.c:460-467 | stores into the cells of the last row make the picture one with those cells |
| Relocation.Block.RemoveRow | src/modules/mysql/mysac/mysac_query.c:430-433 | `list_del` of the last row leaves the picture without it, in one circle |
| Relocation.Block.MoveNames | src/modules/mysql/mysac/mysac_memory.c:93-110 | every pointer of the column table follows, NULL stays NULL |
| Relocation.Block.MoveCells | src/modules/mysql/mysac/mysac_memory.c:125-165 | the cell switch moves the words of one row whose column types it takes for pointers and that are not 0, and no other word |
| Relocation.Block.MoveRows | src/modules/mysql/mysac/mysac_memory.c:112-170 | the walk visits every row once, reads only moved memory, ends where it began, and leaves all links, tables and cells moved |
| Relocation.Block.ExtendRes | src/modules/mysql/mysac/mysac_memory.c:39-183 | after a successful extension, moved or not, the block shows the same columns and rows in the same circle at the same offsets, a row still being reserved included, its bytes are the old ones and zeros, its words stand for what the move makes of the cells, and they are right for the old ones if and only if it has not moved or every cell survives; a failed one changes nothing |
| Relocation.Block.FetchRow | src/modules/mysql/mysac/mysac_res.c:108-131 | calls one after the other give the rows in list order, then NULL, then the first again |
| Layers.Extend | src/modules/mysql/mysac/mysac_memory.c:39-183 | the block and the offset layer agree on columns, rows and cells after an extension if they did before, wherever the block goes and whatever is stored |
| Layers.OpenTable | src/modules/mysql/mysac/mysac_query.c:253-257 | they agree on the cleared column table |
| Layers.KeepColumn | src/modules/mysql/mysac/mysac_query.c:293-301 | on every descriptor |
| Layers.LinkRow | src/modules/mysql/mysac/mysac_query.c:356-367 | on a new row in the circle |
| Layers.TakeTm | src/modules/mysql/mysac/mysac_query.c:383-386 | on its struct tms |
| Layers.KeepRow | src/modules/mysql/mysac/mysac_query.c:460-467 | on its decoded cells |
| Layers.UnlinkLast | src/modules/mysql/mysac/mysac_query.c:430-433 | and when the row allocated in advance leaves the circle |
| Layers.FetchAll | src/modules/mysql/mysac/mysac_res.c:108-131 | after a query the client's calls give, for exactly the rows that were sent and in order, tables whose words stand for the cells of that row, then NULL |
| Encode.ValueRoundTrip | src/modules/mysql/mysac/mysac_encode_values.c:62-272 | whatever stands around it, an encoded value of any type comes back from the binary decoder, which stops behind it, if and only if it is in range; of a time only its microseconds are |
| Encode.TimeBack | src/modules/mysql/mysac/mysac_encode_values.c:146-196 | a time comes back from the decoder if and only if it is below a second: the encoder writes the sign behind the seconds, and the decoder reads it in front of the days |
| Encode.ServerTime | src/modules/mysql/mysac/mysac_decode_row.c:166-192 | a time as a server sends it (Binary Protocol Value), in any of the three forms, is read to its end and comes back if and only if it is not zero; zero leaves the pointer in the cell |
| Encode.RowRoundTrip | src/modules/mysql/mysac/mysac_encode_values.c:43-283 | for every mix of types and every set of null columns that the bitmap names, the decoded row is the encoded one |
| Encode.IntBack | src/modules/mysql/mysac/mysac_encode_values.c:96-125 | stored integers come back if and only if they fit |
| Encode.EncodeValue | src/modules/mysql/mysac/mysac_encode_values.c:43-283 | the bytes and length written for every type, and -1 exactly for what is refused or does not fit the room; nothing behind the room is written |
| Escape.LiteralRoundTrip | src/lib/esql_query.c:26-85 | in both modes a string, escaped and quoted, is scanned as one literal with the value of that string, wherever it stands in SQL text; with backslashes in double quotes as well as in single ones |
| Escape.EscapedSize | src/lib/esql_query.c:33 | the output takes at most twice the room, and holds no terminator |
| Escape.PlainText | src/lib/esql_query.c:35-82 | each quote, and with backslashes each backslash, double quote, newline, carriage return and NUL, takes one character more and nothing else does; so a string is unchanged if and only if it has none |
| Escape.OneLine | src/lib/esql_query.c:48-82 | with backslashes the escaped text has no newline, no carriage return and no NUL |
| Escape.DoubleQuotes | src/lib/esql_query.c:35-47 | the pointer loop without backslashes writes the escaped text, in bounds |
| Escape.Backslashes | src/lib/esql_query.c:48-82 | the pointer loop with backslashes writes the escaped text, in bounds |
| Escape.StringEscape | src/lib/esql_query.c:26-85 | NULL gives NULL; otherwise a new C string, the escape of the text |
| Scheduler.StepOk | src/lib/esql_events.c:32-322 | each step of the mutual recursion of the event functions, query and connect callbacks included, does not add to the calls that are queued or still allowed to callbacks, and takes one or comes nearer to returning: so it returns |
| Scheduler.FirstReady | src/lib/esql_pool.c:52-63 | the member rebalancing takes from is the first whose next call is a query |
| Scheduler.FirstIdle | src/lib/esql_pool.c:26-30 | the member placement prefers is the first idle one |
| Ledger.AcceptsBalanced | src/lib/esql_query.c:249-279 | accepting a query keeps the books: every query in one place, outstanding ids different, the data table exact |
| Ledger.StartsBalanced | src/lib/esql_events.c:65-79 | starting a queued query keeps the books, and finds the data it was submitted with |
| Ledger.EndsBalanced | src/lib/esql_events.c:154-168 | ending a query keeps the books |
| Safety.StepSafe | src/lib/esql_events.c:32-322 | every step of the event functions keeps conservation, queue order, first-in-first-out, data, callback, work conservation and count |
| Safety.ApplySafe | src/lib/esql_pool.c:98-164 | every call of the user and every turn of the event loop keeps them, whatever backend and callbacks do |
| Safety.WorkConserving | src/lib/esql_pool.c:20-67 | in every run without database changes, some member idle means that no query waits anywhere |
| Safety.PlacedRight | src/lib/esql_pool.c:20-44 | a query goes to the first idle member, else to the first of those whose query has run longest, else to the first |
| Safety.PromptExactly | src/lib/esql_events.c:32-83 | with database changes `esql_next` keeps "no query next in a queue while a member is idle" if and only if it does not come to a change with a query behind it while another member is idle |
| Safety.StepPrompt | src/lib/esql_events.c:32-322 | of all the steps of the event functions, callbacks included, only such an `esql_next` ends it |
| Safety.PromptWhenCalm | src/lib/esql_pool.c:98-164 | a run keeps it in all its states, those within chains of calls included, if and only if no step of the run is such an `esql_next`; then it holds at the end |
| Safety.ChangeStarves | src/lib/esql_events.c:54-64 | a concrete failure: nine calls and turns after which a pool of two has a query next in a queue while a member is idle |
| Safety.NothingLost | src/lib/esql_pool.c:52-63 | in every run every accepted query is in exactly one place: ended, in a current slot, or in a queue; how it ended is the subject of `Delivery` |
| Safety.QueueOrder | src/lib/esql_query.c:269-279 | in every run every queue is in submission order |
| Safety.Routed | src/lib/esql_events.c:154-168 | in every run what has ended carries the id, text and data given when it was submitted; with `Delivery.History` that is what its callback got |
| Safety.DataKept | src/lib/esql_query.c:274-278 | in every run the table of user data holds exactly the waiting ids with data |
| Safety.CalledOnce | src/lib/esql_events.c:161-168 | in every run a callback is called at most as often as it was set |
| Safety.FirstInFirstOut | src/lib/esql_events.c:53-92 | in every run of an Esql of its own, accepted is ended, then current, then queued, in order |
| Safety.UniqueAtFirst | src/lib/esql_query.c:249 | the first 2^32 - 1 accepted queries get different ids |
| Safety.CountRight | src/lib/esql_events.c:104-119 | in every run the pool's count is the number of connected members, and its connection was announced once since its last disconnection if it says it is connected, else not |
| Safety.AnnouncedComplete | src/lib/esql_events.c:114-128 | a step announces the pool's connection only when every member is connected and the pool was not announced before |
| Delivery.StepSettles | src/lib/esql_events.c:130-176 | a step ends at most the query its member works on: with its callback if one is set for the id, as an event if none is and it succeeded; and it calls exactly those callbacks |
| Delivery.StepPends | src/lib/esql_events.c:216-280 | the next call is looked for with a query still there exactly behind a failure without a callback on a descriptor that goes on |
| Delivery.TurnTells | src/lib/esql_events.c:95-322 | what a turn tells first of the query in flight: nothing if the backend is not ready, its result if it is, its error if it fails and a callback is set; else it is dropped, or stays with a closed connection |
| Delivery.History | src/lib/esql_events.c:32-322 | in every run the queries that have ended are those its steps tell, in order, and each callback was called exactly as often as a query of its id ended with one |
| Delivery.UnreportedExactly | src/lib/esql_events.c:241-268 | in every run as many queries are dropped as there are failures without a callback on a descriptor that goes on, and as many are lost as connections are made for closed members that still have one |
| Delivery.ReportedExactly | src/lib/esql_events.c:130-280 | every query that a run ends is reported, to its callback or as an event, if and only if the run has neither of the two |
| Delivery.Delivered | src/lib/esql_events.c:130-280 | then every accepted query has been reported, is worked on, or waits, exactly one of these and once |
| Delivery.OneDropped | src/lib/esql_events.c:263-267 | a concrete failure: four calls and turns after which the only query is over and nobody has been told |
| Delivery.OneLost | src/lib/esql_connect.c:65-70 | a concrete failure: five calls and turns after which the only query has gone with its old connection |
| Hooks.StepHonours | src/lib/esql_events.c:154-168 | a step takes away only the callback of the query it ends, and ends that query by calling it |
| Hooks.HookHonoured | src/lib/esql_query.c:394-408 | in every run from any safe state, once a callback is set for an id, the first query of that id to end goes to it unless a new connection is made over the query, and until then the callback stays set |
| Admission.AcceptedExactly | src/lib/esql_query.c:232-282 | a submission gives an id, and is accepted, if and only if the member it is given to is connected and, if idle, its backend takes it, and a pool says that it is connected |
| Admission.RefusedAll | src/lib/esql_pool.c:26-30 | a closed first idle member shuts out all others |
| Admission.ShutRun | src/lib/esql_pool.c:20-44 | a pool whose first member is closed and idle accepts no query before it is told to connect, in any run, whatever its other members are |
| Admission.OneShutsOut | src/lib/esql_events.c:324-331 | a concrete failure: a timeout on an idle pool of two, after which it accepts nothing though it says that it is connected and its second member is idle |
| Admission.ApplyConnected | src/lib/esql_connect.c:81-111 | a pool that says that it is connected stops saying so if and only if it is disconnected as a whole |
| Admission.RunConnected | src/lib/esql_events.c:269-280 | so in a run without that it goes on saying so, whatever errors its members have |
| Effects.DisconnectsAll | src/lib/esql_pool.c:130-139 | after `esql_disconnect` nobody is connected, every connected member is closed and counted off, and what each works on, holds and has queued is what it was |
| Effects.ConnectsAll | src/lib/esql_pool.c:109-128 | `esql_connect` begins a connection for exactly the members that have none and whose backend takes it, each asked once and in order |
| Effects.ChangesAll | src/lib/esql_connect.c:142-173 | a database change reaches every member: sent where idle and connected, else queued last with the name given |
| Effects.SubmitsOne | src/lib/esql_query.c:232-282 | a query that gets an id is the work of one connected member from now on, or the last of its queue, and no other member changes |
| Effects.NextTakes | src/lib/esql_events.c:32-93 | `esql_next` takes the head of the member's own queue, else in a pool of the first queue that begins with a query, and changes no other member |
| Effects.NextOldest | src/lib/esql_events.c:65-82 | the query it starts has waited longest in its queue |
| Effects.ClockCleared | src/lib/esql_events.c:161-168 | a query that ends with its callback leaves its member's clock at zero |
| Effects.ErrorCloses | src/lib/esql_events.c:263-280 | after an error the member goes on if it was running a query and its descriptor is well, else it is closed |
| Effects.ErrorAsks | src/lib/esql_events.c:269-280 | what the connect callback asks for when a connection fails is accepted as any submission is, before that connection is closed |
| Effects.AsksInTurn | src/lib/esql_events.c:161-162 | of the queries a callback submits each is accepted as a submission to what has become of those before it |
| Effects.StepNotifies | src/lib/esql_events.c:114-128 | a step calls the connect callback once if it makes the last missing connection of a pool that was not announced, or that of an Esql, or if a connection fails that is not running a query, and not at all otherwise |
| Effects.RunNotifies | src/lib/esql_events.c:269-273 | over every run it is called exactly as often as there are such steps |
| Esql.Connection.Append | src/lib/esql_query.c:271-273 | the three lists grow by one call each, and stay aligned |
| Esql.Connection.UpdateLists | src/lib/esql_events.c:20-30 | UPDATE_LISTS takes the first call off all three lists if it is of the given kind, and they stay aligned |
| Esql.Connection.MoveHead | src/lib/esql_pool.c:57-59 | the heads of the three lists become the ends of another connection's lists, and all stay aligned |
| Esql.Pool.constructor | src/lib/esql_pool.c:218-244 | a new pool, or a new Esql, is the initial state |
| Esql.Pool.IdleFind | src/lib/esql_pool.c:20-44 | the two scans choose the member of the specification |
| Esql.Pool.TakeId | src/lib/esql_query.c:249 | the counter goes to the next id, over 0 after 2^32 - 1 |
| Esql.Pool.GiveIdBack | src/lib/esql_query.c:258 | the counter goes back to the id before, over 0 |
| Esql.Pool.Query | src/lib/esql_query.c:232-282 | `esql_query` does what the specification's submission does to every field |
| Esql.Pool.Submit | src/lib/esql_pool.c:154-164 | a submission to a pool does what the specification says to every field of every member |
| Esql.Pool.SetCallback | src/lib/esql_query.c:394-408 | refuses id 0, else the callback is set and nothing else changes |
| Esql.Pool.Rebalance | src/lib/esql_pool.c:46-67 | moves one call, or says that there is none |
| Esql.Pool.StartNext | src/lib/esql_events.c:32-91 | `esql_next` up to its last call is the specification's step |
| Esql.Pool.Next | src/lib/esql_events.c:32-93 | `esql_next` is the chain of steps that begins there, and returns |
| Esql.Pool.CallComplete | src/lib/esql_events.c:95-184 | `esql_call_complete` is the chain of steps that begins there, and returns |
| Esql.Pool.EventError | src/lib/esql_events.c:216-280 | `esql_event_error` is the chain of steps that begins there, connect callback included, and returns |
| Esql.Pool.ConnectHandler | src/lib/esql_events.c:282-322 | `esql_connect_handler` is the chain of steps that begins there, and returns |
| Esql.Pool.Disconnect | src/lib/esql_connect.c:81-111 | one connection is closed, and the pool counts it off if it was connected |
| Esql.Pool.DisconnectAll | src/lib/esql_pool.c:130-139 | no member is connected any more, every member that was connected is closed, the count is 0, and what the members work on, hold and have queued is what it was |
| Esql.Pool.ConnectOne | src/lib/esql_connect.c:37-72 | a closed connection is being made, unless the backend fails; a query it still held is lost |
| Esql.Pool.Connect | src/lib/esql_pool.c:109-128 | exactly the members that are not connected and whose backend takes it are being connected |
| Esql.Pool.SetDatabase | src/lib/esql_connect.c:142-173 | a database change is sent at once by an idle connected connection, else queued |
| Esql.Pool.ChangeDatabase | src/lib/esql_pool.c:98-107 | every member is told, at once or behind what it has queued |
| Esql.Pool.Turn | src/lib/esql_events.c:32-341 | every turn of the program is the specification's, and keeps all invariants |
| Esql.Pool.Drive | src/lib/esql_events.c:32-341 | every run of the program is the specification's run, and keeps all invariants |

## Left out

- Engine.Mysac.SendQuery: a lost server is not modelled; in the row phase the code goes on to decode when the reader reports it.
- Engine.Mysac.DecodeRespbloc: packets with an empty payload and end packets shorter than five bytes are outside the model, as are OK packets, which only statements without rows get.
- Engine.Mysac.ClassifyPacket: the rewriting of the message of a server error in place, which writes one byte behind the packet, is left out; the code is kept.
- Engine.Mysac.SetQuery: the statement is taken to be one that returns rows, and its result to be given by the caller and fresh; a result that is used again keeps its old table and rows until the column count has arrived, and an extension before that would walk over them.
- Engine.Mysac.RecvColCount: a count of 0 columns and the CALL branch are outside the model, and so is the branch for a status that announces another result set (mysac_query.c:163), which only an answer that failed behind such a marker, or a statement before, can leave.
- Engine.Mysac.UnlinkLast: the multi-results bit is taken to be clear.
- Engine.Mysac.ExtendRes: a `realloc` that fails is part of `Relocation.Block.ExtendRes`, not of the offset layer.
- Engine.Mysac.Reserve: sizes are unbounded, so the 32-bit `read_len` does not wrap.
- Relocation.Block.ExtendRes: the result's own list link is taken to refer to itself; in a longer list of results it would be moved although its neighbours are not.
- TextRow.DecodeStringRow: numbers in FLOAT and DOUBLE columns are exact reals; rounding is not modelled. A length with which `i + len` leaves 64 bits is outside the model.
- BinaryRow.DecodeBinaryRow: dates with a null or short length, times shorter than what is read of them at the end of the packet, and more than 126 columns, for which the bitmap does not fit the decoder's copy, are outside the model.
- Encode.EncodeValue: the sign change of a negative time in the caller's structure is left out.
- Escape.StringEscape: a failing `malloc` is left out.
- Net.Socket.Read: end of stream and errors other than "not now" are left out.
- Esql.Pool.ConnectHandler: it runs while the descriptor is open; a deferred `fd_job` that runs after the connection was closed is left out.
- Esql.Pool.Query: `esql_query_vargs` does the same behind its formatting, which is left out.
- Esql.Pool.Invoke: a callback, of a query or of the connection, submits queries and sets callbacks for them; one that disconnects or frees objects is left out.
- Esql.Pool.SetDatabase: the database type is MySQL, so databases can be switched.
- Esql.Pool.ConnectOne: backends without a descriptor are left out.
- The reconnect timer and its handler, event counts and deferred frees.
- `mysac_connect.c`, `mysac_usedatabase.c`, `mysac_stmt.c`: mostly one packet after the other; the statement's null bitmap does not use the indices of the format.
- `esql_query_escape`: its driver tests the result for `%s` the wrong way round and repeats a `%` without text before it, so concatenation does not hold.
- `esql_model.c`, `esql_res.c`, `esql_module.c`, libpq, sqlite, getters and setters.
