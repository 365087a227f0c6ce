/**
 * The asset parser's DTII datatable decoder, its shader and effect helpers
 * and the required-stats lookup.
 *
 * A datatable is a signed big-endian column count and row count, then one
 * header per column (a NUL-terminated ASCII name and a four-character type
 * code), then the rows, whose cells are read in column order by type: `i`
 * cells as signed big-endian words, `f` cells as opaque four-byte floats,
 * `s` cells as NUL-terminated text, any other type skipped four bytes at a
 * time. A `DataView` number read past the end throws a `RangeError` that
 * escapes the decoder (`Throws`); nothing else is checked.
 */
module SwgAssetParser {
  import opened Wrappers
  import opened Bytes
  import Text
  import IffLoader

  datatype Column = Column(name: string, kind: string)

  /** The value a row object holds for one column; `Unset` where the column's type is skipped. */
  datatype Cell = IntCell(i: int) | FloatCell(bits: seq<byte>) | TextCell(s: string) | Unset

  /** `{ columns, rows }`: each row lists its cells in column order. */
  datatype Datatable = Datatable(columns: seq<Column>, rows: seq<seq<Cell>>)

  datatype TableOutcome = Table(table: Datatable) | Throws

  const EMPTY_TABLE := Datatable([], [])

  const INT_TYPE := "i   "
  const FLOAT_TYPE := "f   "
  const STRING_TYPE := "s   "

  /** A `for (i = 0; i < n; ...)` bound: a negative count runs no iteration. */
  function Count(n: int): (r: nat)
    ensures n >= 0 ==> r == n
    ensures n < 0 ==> r == 0
  {
    if n < 0 then 0 else n
  }

  /** `String.fromCharCode(data[k])`: the byte's code, or NUL past the end (`undefined` converts to 0). */
  function CodeAt(data: seq<byte>, k: nat): char
  {
    if k < |data| then (data[k] as int) as char else '\0'
  }

  /**
   * Where the scan `while (data[offset] !== 0 && offset < data.length)`
   * stops: the first NUL at or after `off`, or the end of the buffer.
   */
  function TermEnd(data: seq<byte>, off: nat): (r: nat)
    ensures off <= r
    ensures off < |data| ==> r <= |data|
    ensures off >= |data| ==> r == off
    decreases |data| - off
  {
    if off >= |data| || data[off] == 0 then off else TermEnd(data, off + 1)
  }

  /** The scan stops at a NUL or at the end, and passes only non-NUL bytes. */
  lemma {:induction false} TermEndStops(data: seq<byte>, off: nat)
    ensures TermEnd(data, off) < |data| ==> data[TermEnd(data, off)] == 0
    ensures forall k :: off <= k < TermEnd(data, off) ==> k < |data| && data[k] != 0
    decreases |data| - off
  {
    if off < |data| && data[off] != 0 {
      TermEndStops(data, off + 1);
    }
  }

  /** The NUL-terminated ASCII text at `off`, high bits cleared. */
  function TextFrom(data: seq<byte>, off: nat): string
    decreases |data| - off
  {
    if off >= |data| || data[off] == 0 then "" else [(data[off] as int % 128) as char] + TextFrom(data, off + 1)
  }

  /** The text is the ASCII decoding of the bytes up to where the NUL scan stops. */
  lemma {:induction false} TextFromIsAsciiAt(data: seq<byte>, off: nat)
    ensures TextFrom(data, off) == AsciiAt(data, off, TermEnd(data, off) - off)
    decreases |data| - off
  {
    if off < |data| && data[off] != 0 {
      TextFromIsAsciiAt(data, off + 1);
    }
  }

  /** One column header at `off`, and the offset after its type code. */
  function ColumnAt(data: seq<byte>, off: nat): (r: (Column, nat))
    ensures r.1 == TermEnd(data, off) + 5
  {
    var e := TermEnd(data, off);
    (Column(TextFrom(data, off), [CodeAt(data, e + 1), CodeAt(data, e + 2), CodeAt(data, e + 3), CodeAt(data, e + 4)]), e + 5)
  }

  /** `n` column headers from `off`, and the offset after them. */
  function ColumnsFrom(data: seq<byte>, off: nat, n: nat): (r: (seq<Column>, nat))
    ensures |r.0| == n
    decreases n
  {
    if n == 0 then ([], off)
    else
      var rest := ColumnsFrom(data, ColumnAt(data, off).1, n - 1);
      ([ColumnAt(data, off).0] + rest.0, rest.1)
  }

  /** One cell of the given type at `off`, and the offset after it; None where the read throws. */
  function CellAt(data: seq<byte>, off: nat, kind: string): (r: Option<(Cell, nat)>)
    ensures r.None? <==> (kind == INT_TYPE || kind == FLOAT_TYPE) && off + 4 > |data|
  {
    if kind == INT_TYPE then
      if off + 4 <= |data| then Some((IntCell(I32BE(data, off)), off + 4)) else None
    else if kind == FLOAT_TYPE then
      if off + 4 <= |data| then Some((FloatCell(data[off..off + 4]), off + 4)) else None
    else if kind == STRING_TYPE then
      Some((TextCell(TextFrom(data, off)), TermEnd(data, off) + 1))
    else
      Some((Unset, off + 4))
  }

  /** Put `xs` in front of a successful read. */
  function Prepend<T>(xs: seq<T>, r: Option<(seq<T>, nat)>): (p: Option<(seq<T>, nat)>)
    ensures p.Some? <==> r.Some?
    ensures r.Some? ==> p.value == (xs + r.value.0, r.value.1)
  {
    match r
    case None => None
    case Some((ys, end)) => Some((xs + ys, end))
  }

  lemma PrependNothing<T>(r: Option<(seq<T>, nat)>)
    ensures Prepend([], r) == r
  {
    if r.Some? {
      assert [] + r.value.0 == r.value.0;
    }
  }

  lemma PrependTwice<T>(xs: seq<T>, ys: seq<T>, r: Option<(seq<T>, nat)>)
    ensures Prepend(xs, Prepend(ys, r)) == Prepend(xs + ys, r)
  {
    if r.Some? {
      assert xs + (ys + r.value.0) == (xs + ys) + r.value.0;
    }
  }

  /** One row: a cell per column, in column order. */
  function RowFrom(data: seq<byte>, off: nat, cols: seq<Column>): (r: Option<(seq<Cell>, nat)>)
    ensures r.Some? ==> |r.value.0| == |cols|
    decreases |cols|
  {
    if cols == [] then Some(([], off))
    else match CellAt(data, off, cols[0].kind)
      case None => None
      case Some((c, next)) => Prepend([c], RowFrom(data, next, cols[1..]))
  }

  /** `n` rows from `off`; None where a cell read throws. */
  function RowsFrom(data: seq<byte>, off: nat, cols: seq<Column>, n: nat): (r: Option<(seq<seq<Cell>>, nat)>)
    ensures r.Some? ==> |r.value.0| == n && forall k :: 0 <= k < n ==> |r.value.0[k]| == |cols|
    decreases n
  {
    if n == 0 then Some(([], off))
    else match RowFrom(data, off, cols)
      case None => None
      case Some((row, next)) => Prepend([row], RowsFrom(data, next, cols, n - 1))
  }

  /** `parseDatatable`. */
  function DatatableSpec(data: seq<byte>): TableOutcome
  {
    if |data| < 8 then Table(EMPTY_TABLE)
    else
      var header := ColumnsFrom(data, 8, Count(I32BE(data, 0)));
      match RowsFrom(data, header.1, header.0, Count(I32BE(data, 4)))
      case None => Throws
      case Some((rows, _)) => Table(Datatable(header.0, rows))
  }

  // ---------------------------------------------------------------------
  // The decoder's loops

  lemma ColumnsStep(data: seq<byte>, off: nat, n: nat)
    requires n > 0
    ensures ColumnsFrom(data, off, n) ==
      ([ColumnAt(data, off).0] + ColumnsFrom(data, ColumnAt(data, off).1, n - 1).0, ColumnsFrom(data, ColumnAt(data, off).1, n - 1).1)
  {
  }

  lemma RowStep(data: seq<byte>, off: nat, cols: seq<Column>)
    requires cols != [] && CellAt(data, off, cols[0].kind).Some?
    ensures RowFrom(data, off, cols) ==
      Prepend([CellAt(data, off, cols[0].kind).value.0], RowFrom(data, CellAt(data, off, cols[0].kind).value.1, cols[1..]))
  {
  }

  lemma RowsStep(data: seq<byte>, off: nat, cols: seq<Column>, n: nat)
    requires n > 0 && RowFrom(data, off, cols).Some?
    ensures RowsFrom(data, off, cols, n) ==
      Prepend([RowFrom(data, off, cols).value.0], RowsFrom(data, RowFrom(data, off, cols).value.1, cols, n - 1))
  {
  }

  /** The NUL scan. */
  method ScanToNul(data: seq<byte>, start: nat) returns (offset: nat)
    ensures offset == TermEnd(data, start)
  {
    offset := start;
    while offset < |data| && data[offset] != 0
      invariant start <= offset
      invariant TermEnd(data, offset) == TermEnd(data, start)
      decreases |data| - offset
    {
      offset := offset + 1;
    }
  }

  /** The column loop, from byte 8. */
  method ReadColumns(data: seq<byte>, numColumns: int) returns (columns: seq<Column>, offset: nat)
    ensures (columns, offset) == ColumnsFrom(data, 8, Count(numColumns))
  {
    columns := [];
    offset := 8;
    var i := 0;
    assert columns + ColumnsFrom(data, offset, Count(numColumns)).0 == ColumnsFrom(data, offset, Count(numColumns)).0;
    while i < numColumns
      invariant 0 <= i && (numColumns >= 0 ==> i <= numColumns)
      invariant Count(numColumns) >= i
      invariant ColumnsFrom(data, 8, Count(numColumns)) ==
        (columns + ColumnsFrom(data, offset, Count(numColumns) - i).0, ColumnsFrom(data, offset, Count(numColumns) - i).1)
      decreases numColumns - i
    {
      ColumnsStep(data, offset, Count(numColumns) - i);
      var nameStart := offset;
      offset := ScanToNul(data, offset);
      var columnName := AsciiAt(data, nameStart, offset - nameStart);
      TextFromIsAsciiAt(data, nameStart);
      offset := offset + 1;
      var columnType := [CodeAt(data, offset), CodeAt(data, offset + 1), CodeAt(data, offset + 2), CodeAt(data, offset + 3)];
      offset := offset + 4;
      assert ColumnAt(data, nameStart) == (Column(columnName, columnType), offset);
      assert columns + [Column(columnName, columnType)] + ColumnsFrom(data, offset, Count(numColumns) - i - 1).0 ==
        columns + ([Column(columnName, columnType)] + ColumnsFrom(data, offset, Count(numColumns) - i - 1).0);
      columns := columns + [Column(columnName, columnType)];
      i := i + 1;
    }
    assert columns + ColumnsFrom(data, offset, Count(numColumns) - i).0 == columns;
  }

  /** One cell of the row loop: the read for the column's type, and the offset after it. */
  method ReadCell(data: seq<byte>, offset: nat, kind: string) returns (cell: Cell, next: nat)
    requires CellAt(data, offset, kind).Some?
    ensures CellAt(data, offset, kind) == Some((cell, next))
  {
    if kind == INT_TYPE {
      cell := IntCell(I32BE(data, offset));
      next := offset + 4;
    } else if kind == FLOAT_TYPE {
      cell := FloatCell(data[offset..offset + 4]);
      next := offset + 4;
    } else if kind == STRING_TYPE {
      var end := ScanToNul(data, offset);
      cell := TextCell(AsciiAt(data, offset, end - offset));
      TextFromIsAsciiAt(data, offset);
      next := end + 1;
    } else {
      cell := Unset;
      next := offset + 4;
    }
  }

  /** The cell loop of one row; None where a number read throws. */
  method ReadRow(data: seq<byte>, start: nat, columns: seq<Column>) returns (r: Option<(seq<Cell>, nat)>)
    ensures r == RowFrom(data, start, columns)
  {
    var row: seq<Cell> := [];
    var offset: nat := start;
    var j := 0;
    PrependNothing(RowFrom(data, offset, columns));
    while j < |columns|
      invariant 0 <= j <= |columns|
      invariant RowFrom(data, start, columns) == Prepend(row, RowFrom(data, offset, columns[j..]))
    {
      var kind := columns[j].kind;
      if (kind == INT_TYPE || kind == FLOAT_TYPE) && offset + 4 > |data| {
        assert RowFrom(data, offset, columns[j..]) == None;
        return None;
      }
      var cell, next := ReadCell(data, offset, kind);
      RowStep(data, offset, columns[j..]);
      PrependTwice(row, [cell], RowFrom(data, next, columns[j..][1..]));
      assert columns[j..][1..] == columns[j + 1..];
      offset := next;
      row := row + [cell];
      j := j + 1;
    }
    assert columns[j..] == [];
    assert row + [] == row;
    r := Some((row, offset));
  }

  /** The row loop; None where a cell read throws. */
  method ReadRows(data: seq<byte>, start: nat, columns: seq<Column>, numRows: int) returns (r: Option<(seq<seq<Cell>>, nat)>)
    ensures r == RowsFrom(data, start, columns, Count(numRows))
  {
    var rows: seq<seq<Cell>> := [];
    var offset: nat := start;
    var i := 0;
    PrependNothing(RowsFrom(data, offset, columns, Count(numRows)));
    while i < numRows
      invariant 0 <= i && Count(numRows) >= i
      invariant RowsFrom(data, start, columns, Count(numRows)) == Prepend(rows, RowsFrom(data, offset, columns, Count(numRows) - i))
      decreases numRows - i
    {
      var row := ReadRow(data, offset, columns);
      if row.None? {
        return None;
      }
      RowsStep(data, offset, columns, Count(numRows) - i);
      PrependTwice(rows, [row.value.0], RowsFrom(data, row.value.1, columns, Count(numRows) - i - 1));
      rows := rows + [row.value.0];
      offset := row.value.1;
      i := i + 1;
    }
    assert rows + [] == rows;
    r := Some((rows, offset));
  }

  /** `parseDatatable`: None for the `RangeError` a number read past the end throws. */
  method ParseDatatable(data: seq<byte>) returns (r: TableOutcome)
    ensures r == DatatableSpec(data)
  {
    if |data| < 8 {
      return Table(EMPTY_TABLE);
    }
    var numColumns := I32BE(data, 0);
    var numRows := I32BE(data, 4);
    var columns, offset := ReadColumns(data, numColumns);
    var rows := ReadRows(data, offset, columns, numRows);
    if rows.None? {
      return Throws;
    }
    r := Table(Datatable(columns, rows.value.0));
  }

  // ---------------------------------------------------------------------
  // What the decoder promises

  /**
   * A decoded table has one column per header the counts announce (none for
   * a negative count), as many rows as announced, and a cell per column in
   * every row; a buffer under 8 bytes decodes to the empty table.
   */
  lemma DatatableShape(data: seq<byte>)
    ensures |data| < 8 ==> DatatableSpec(data) == Table(EMPTY_TABLE)
    ensures |data| >= 8 && DatatableSpec(data).Table? ==>
      var t := DatatableSpec(data).table;
      |t.columns| == Count(I32BE(data, 0)) && |t.rows| == Count(I32BE(data, 4)) &&
      forall k :: 0 <= k < |t.rows| ==> |t.rows[k]| == |t.columns|
  {
  }

  /** A row without number columns is always read. */
  lemma {:induction false} TextRowsNeverThrow(data: seq<byte>, off: nat, cols: seq<Column>)
    requires forall k :: 0 <= k < |cols| ==> cols[k].kind != INT_TYPE && cols[k].kind != FLOAT_TYPE
    ensures RowFrom(data, off, cols).Some?
    decreases |cols|
  {
    if cols != [] {
      TextRowsNeverThrow(data, CellAt(data, off, cols[0].kind).value.1, cols[1..]);
    }
  }

  /** Without number columns no row read throws, whatever the row count. */
  lemma {:induction false} TextTablesNeverThrow(data: seq<byte>, off: nat, cols: seq<Column>, n: nat)
    requires forall k :: 0 <= k < |cols| ==> cols[k].kind != INT_TYPE && cols[k].kind != FLOAT_TYPE
    ensures RowsFrom(data, off, cols, n).Some?
    decreases n
  {
    if n > 0 {
      TextRowsNeverThrow(data, off, cols);
      TextTablesNeverThrow(data, RowFrom(data, off, cols).value.1, cols, n - 1);
    }
  }

  /** An integer column whose cell would start past the end makes the whole decode throw. */
  lemma IntCellPastEndThrows(data: seq<byte>, off: nat, cols: seq<Column>)
    requires cols != [] && cols[0].kind == INT_TYPE && off + 4 > |data|
    ensures RowFrom(data, off, cols) == None
    ensures forall n: nat :: n > 0 ==> RowsFrom(data, off, cols, n) == None
  {
  }

  // ---------------------------------------------------------------------
  // Writing a datatable and reading it back

  predicate NulFreeAscii(s: string) { IsAscii(s) && '\0' !in s }

  /** A cell the writer can lay out under a column of type `kind`. */
  predicate CellFits(kind: string, c: Cell)
  {
    if kind == INT_TYPE then c.IntCell? && -0x8000_0000 <= c.i < 0x8000_0000
    else if kind == FLOAT_TYPE then c.FloatCell? && |c.bits| == 4
    else if kind == STRING_TYPE then c.TextCell? && NulFreeAscii(c.s)
    else c.Unset?
  }

  predicate ColumnFits(c: Column)
  {
    NulFreeAscii(c.name) && |c.kind| == 4 && forall k :: 0 <= k < 4 ==> c.kind[k] as int < 256
  }

  /** Each cell fits its column; one cell per column. */
  predicate RowFits(cols: seq<Column>, row: seq<Cell>)
    decreases |row|
  {
    |row| == |cols| && (row != [] ==> CellFits(cols[0].kind, row[0]) && RowFits(cols[1..], row[1..]))
  }

  predicate ColumnsFit(cols: seq<Column>)
  {
    cols != [] ==> ColumnFits(cols[0]) && ColumnsFit(cols[1..])
  }

  predicate RowsFit(cols: seq<Column>, rows: seq<seq<Cell>>)
  {
    rows != [] ==> RowFits(cols, rows[0]) && RowsFit(cols, rows[1..])
  }

  predicate Writable(t: Datatable)
  {
    |t.columns| < 0x8000_0000 && |t.rows| < 0x8000_0000 && ColumnsFit(t.columns) && RowsFit(t.columns, t.rows)
  }

  function EncodeColumn(c: Column): (r: seq<byte>)
    requires ColumnFits(c)
    ensures |r| == |c.name| + 5
  {
    AsciiBytes(c.name) + [0] + [c.kind[0] as int as byte, c.kind[1] as int as byte, c.kind[2] as int as byte, c.kind[3] as int as byte]
  }

  function EncodeColumns(cols: seq<Column>): seq<byte>
    requires ColumnsFit(cols)
  {
    if cols == [] then [] else EncodeColumn(cols[0]) + EncodeColumns(cols[1..])
  }

  function EncodeCell(kind: string, c: Cell): seq<byte>
    requires CellFits(kind, c)
  {
    match c
    case IntCell(i) => EncodeI32BE(i)
    case FloatCell(bits) => bits
    case TextCell(s) => AsciiBytes(s) + [0]
    case Unset => [0, 0, 0, 0]
  }

  function EncodeRow(cols: seq<Column>, row: seq<Cell>): seq<byte>
    requires RowFits(cols, row)
    decreases |row|
  {
    if row == [] then [] else EncodeCell(cols[0].kind, row[0]) + EncodeRow(cols[1..], row[1..])
  }

  function EncodeRows(cols: seq<Column>, rows: seq<seq<Cell>>): seq<byte>
    requires RowsFit(cols, rows)
  {
    if rows == [] then [] else EncodeRow(cols, rows[0]) + EncodeRows(cols, rows[1..])
  }

  /** The bytes of a datatable as the game's table writer lays them out. */
  function EncodeDatatable(t: Datatable): seq<byte>
    requires Writable(t)
  {
    EncodeI32BE(|t.columns|) + EncodeI32BE(|t.rows|) + EncodeColumns(t.columns) + EncodeRows(t.columns, t.rows)
  }

  /** The scan stops at the first NUL. */
  lemma {:induction false} TermEndAt(data: seq<byte>, a: nat, b: nat)
    requires a <= b < |data| && data[b] == 0
    requires forall k :: a <= k < b ==> data[k] != 0
    ensures TermEnd(data, a) == b
    decreases b - a
  {
    if a < b {
      TermEndAt(data, a + 1, b);
    }
  }

  /** NUL-terminated text reads back where it was written. */
  lemma TextEncoded(pre: seq<byte>, s: string, post: seq<byte>)
    requires NulFreeAscii(s)
    ensures TermEnd(pre + AsciiBytes(s) + [0] + post, |pre|) == |pre| + |s|
    ensures TextFrom(pre + AsciiBytes(s) + [0] + post, |pre|) == s
  {
    var buf := pre + AsciiBytes(s) + [0] + post;
    AsciiBytesCodes(s);
    forall k | |pre| <= k < |pre| + |s|
      ensures buf[k] != 0
    {
      assert buf[k] == AsciiBytes(s)[k - |pre|];
      assert s[k - |pre|] != '\0';
    }
    TermEndAt(buf, |pre|, |pre| + |s|);
    AsciiAtBytes(pre, s, [0] + post);
    assert buf == pre + AsciiBytes(s) + ([0] + post);
    TextFromIsAsciiAt(buf, |pre|);
  }

  lemma ColumnEncoded(pre: seq<byte>, c: Column, post: seq<byte>)
    requires ColumnFits(c)
    ensures ColumnAt(pre + EncodeColumn(c) + post, |pre|) == (c, |pre| + |EncodeColumn(c)|)
  {
    var kb := [c.kind[0] as int as byte, c.kind[1] as int as byte, c.kind[2] as int as byte, c.kind[3] as int as byte];
    var buf := pre + EncodeColumn(c) + post;
    assert buf == pre + AsciiBytes(c.name) + [0] + (kb + post);
    TextEncoded(pre, c.name, kb + post);
    var e := |pre| + |c.name|;
    assert buf[e + 1..e + 5] == kb;
    assert [CodeAt(buf, e + 1), CodeAt(buf, e + 2), CodeAt(buf, e + 3), CodeAt(buf, e + 4)] == c.kind;
  }

  /** A slice holding `x + y` holds `x` and then `y`. */
  lemma SliceSplit(data: seq<byte>, a: nat, x: seq<byte>, y: seq<byte>)
    requires a + |x| + |y| <= |data| && data[a..a + |x| + |y|] == x + y
    ensures data[a..a + |x|] == x && data[a + |x|..a + |x| + |y|] == y
  {
    assert data[a..a + |x|] == data[a..a + |x| + |y|][..|x|];
    assert data[a + |x|..a + |x| + |y|] == data[a..a + |x| + |y|][|x|..];
  }

  /** A column header held at `off` reads back. */
  lemma ColumnEncodedAt(data: seq<byte>, off: nat, c: Column)
    requires ColumnFits(c) && off + |EncodeColumn(c)| <= |data| && data[off..off + |EncodeColumn(c)|] == EncodeColumn(c)
    ensures ColumnAt(data, off) == (c, off + |EncodeColumn(c)|)
  {
    var pre, post := data[..off], data[off + |EncodeColumn(c)|..];
    assert data == pre + EncodeColumn(c) + post;
    ColumnEncoded(pre, c, post);
  }

  /** Column headers held from `off` read back. */
  lemma {:induction false} ColumnsEncodedAt(data: seq<byte>, off: nat, cols: seq<Column>)
    requires ColumnsFit(cols) && off + |EncodeColumns(cols)| <= |data|
    requires data[off..off + |EncodeColumns(cols)|] == EncodeColumns(cols)
    ensures ColumnsFrom(data, off, |cols|) == (cols, off + |EncodeColumns(cols)|)
    decreases |cols|
  {
    if cols != [] {
      ColumnHeadHeld(data, off, cols);
      ColumnsEncodedAt(data, off + |EncodeColumn(cols[0])|, cols[1..]);
      ColumnsConsEncoded(data, off, cols, off + |EncodeColumns(cols)|);
    }
  }

  /** The first column header and the rest of the headers held at `off`, each at its own place. */
  lemma {:induction false} ColumnHeadHeld(data: seq<byte>, off: nat, cols: seq<Column>)
    requires ColumnsFit(cols) && cols != [] && off + |EncodeColumns(cols)| <= |data|
    requires data[off..off + |EncodeColumns(cols)|] == EncodeColumns(cols)
    ensures ColumnFits(cols[0]) && ColumnsFit(cols[1..])
    ensures |EncodeColumn(cols[0])| + |EncodeColumns(cols[1..])| == |EncodeColumns(cols)|
    ensures data[off..off + |EncodeColumn(cols[0])|] == EncodeColumn(cols[0])
    ensures data[off + |EncodeColumn(cols[0])|..off + |EncodeColumns(cols)|] == EncodeColumns(cols[1..])
  {
    var head, tail := EncodeColumn(cols[0]), EncodeColumns(cols[1..]);
    assert EncodeColumns(cols) == head + tail;
    SliceSplit(data, off, head, tail);
  }

  /** A column header held at `off` followed by columns that read back reads back as one more column. */
  lemma ColumnsConsEncoded(data: seq<byte>, off: nat, cols: seq<Column>, end: nat)
    requires cols != [] && ColumnFits(cols[0])
    requires off + |EncodeColumn(cols[0])| <= |data| && data[off..off + |EncodeColumn(cols[0])|] == EncodeColumn(cols[0])
    requires ColumnsFrom(data, off + |EncodeColumn(cols[0])|, |cols| - 1) == (cols[1..], end)
    ensures ColumnsFrom(data, off, |cols|) == (cols, end)
  {
    ColumnEncodedAt(data, off, cols[0]);
    ColumnsStep(data, off, |cols|);
    assert [cols[0]] + cols[1..] == cols;
  }

  lemma ColumnsEncoded(pre: seq<byte>, cols: seq<Column>, post: seq<byte>)
    requires ColumnsFit(cols)
    ensures ColumnsFrom(pre + EncodeColumns(cols) + post, |pre|, |cols|) == (cols, |pre| + |EncodeColumns(cols)|)
  {
    var data := pre + EncodeColumns(cols) + post;
    assert data[|pre|..|pre| + |EncodeColumns(cols)|] == EncodeColumns(cols);
    ColumnsEncodedAt(data, |pre|, cols);
  }

  lemma IntCellEncoded(pre: seq<byte>, kind: string, i: int, post: seq<byte>)
    requires CellFits(kind, IntCell(i))
    ensures CellAt(pre + EncodeI32BE(i) + post, |pre|, kind) == Some((IntCell(i), |pre| + 4))
  {
    I32BERoundTrip(i, pre, post);
  }

  /** NUL-terminated ASCII held at `off` scans to its terminator and decodes back. */
  lemma {:induction false} TextHeldAt(data: seq<byte>, off: nat, t: string)
    requires NulFreeAscii(t) && off + |t| < |data|
    requires data[off..off + |t| + 1] == AsciiBytes(t) + [0]
    ensures TextFrom(data, off) == t && TermEnd(data, off) == off + |t|
    decreases |t|
  {
    if t == [] {
      assert data[off] == (AsciiBytes(t) + [0])[0] == 0;
    } else {
      var enc := AsciiBytes(t) + [0];
      assert enc == [t[0] as int as byte] + (AsciiBytes(t[1..]) + [0]);
      assert data[off] == enc[0] == t[0] as int as byte;
      assert t[0] != '\0' && t[0] as int < 128;
      assert data[off + 1..off + |t| + 1] == enc[1..] == AsciiBytes(t[1..]) + [0];
      assert NulFreeAscii(t[1..]) by {
        assert forall k :: 0 <= k < |t[1..]| ==> t[1..][k] == t[k + 1];
      }
      TextHeldAt(data, off + 1, t[1..]);
      assert [(data[off] as int % 128) as char] == [t[0]];
      assert t == [t[0]] + t[1..];
    }
  }

  lemma TextCellAt(data: seq<byte>, off: nat, t: string, end: nat)
    requires TextFrom(data, off) == t && TermEnd(data, off) == end
    ensures CellAt(data, off, STRING_TYPE) == Some((TextCell(t), end + 1))
  {
  }

  /** A cell held at `off` reads back. */
  lemma CellEncodedAt(data: seq<byte>, off: nat, kind: string, c: Cell)
    requires CellFits(kind, c) && off + |EncodeCell(kind, c)| <= |data|
    requires data[off..off + |EncodeCell(kind, c)|] == EncodeCell(kind, c)
    ensures CellAt(data, off, kind) == Some((c, off + |EncodeCell(kind, c)|))
  {
    match c
    case IntCell(i) =>
      var pre, post := data[..off], data[off + 4..];
      assert data == pre + EncodeI32BE(i) + post;
      IntCellEncoded(pre, kind, i, post);
    case FloatCell(bits) =>
      assert data[off..off + 4] == bits;
    case TextCell(t) =>
      assert kind == STRING_TYPE;
      TextHeldAt(data, off, t);
      TextCellAt(data, off, t, off + |t|);
    case Unset =>
  }

  lemma RowCons(data: seq<byte>, off: nat, cols: seq<Column>, row: seq<Cell>, mid: nat, end: nat)
    requires cols != [] && row != [] && CellAt(data, off, cols[0].kind) == Some((row[0], mid))
    requires RowFrom(data, mid, cols[1..]) == Some((row[1..], end))
    ensures RowFrom(data, off, cols) == Some((row, end))
  {
    RowStep(data, off, cols);
    assert [row[0]] + row[1..] == row;
  }

  /** A cell held at `off` followed by cells that read back reads back as one more cell. */
  lemma RowConsEncoded(data: seq<byte>, off: nat, cols: seq<Column>, row: seq<Cell>, mid: nat, end: nat)
    requires row != [] && |row| == |cols| && CellFits(cols[0].kind, row[0])
    requires mid == off + |EncodeCell(cols[0].kind, row[0])| <= |data|
    requires data[off..mid] == EncodeCell(cols[0].kind, row[0])
    requires RowFrom(data, mid, cols[1..]) == Some((row[1..], end))
    ensures RowFrom(data, off, cols) == Some((row, end))
  {
    CellEncodedAt(data, off, cols[0].kind, row[0]);
    RowCons(data, off, cols, row, mid, end);
  }

  /** The cells after the first of a row held at `off` are held just after the first cell. */
  lemma {:induction false} RowHeadHeld(data: seq<byte>, off: nat, cols: seq<Column>, row: seq<Cell>)
    requires RowFits(cols, row) && row != [] && off + |EncodeRow(cols, row)| <= |data|
    requires data[off..off + |EncodeRow(cols, row)|] == EncodeRow(cols, row)
    ensures RowFits(cols[1..], row[1..])
    ensures |EncodeCell(cols[0].kind, row[0])| + |EncodeRow(cols[1..], row[1..])| == |EncodeRow(cols, row)|
    ensures data[off + |EncodeCell(cols[0].kind, row[0])|..off + |EncodeRow(cols, row)|] == EncodeRow(cols[1..], row[1..])
  {
    var head, tail := EncodeCell(cols[0].kind, row[0]), EncodeRow(cols[1..], row[1..]);
    assert EncodeRow(cols, row) == head + tail;
    SliceSplit(data, off, head, tail);
  }

  /** The first cell of a row held at `off`, followed by the rest read back, reads back as the row. */
  lemma {:induction false} RowStepEncoded(data: seq<byte>, off: nat, cols: seq<Column>, row: seq<Cell>)
    requires RowFits(cols, row) && row != [] && off + |EncodeRow(cols, row)| <= |data|
    requires data[off..off + |EncodeRow(cols, row)|] == EncodeRow(cols, row)
    requires RowFrom(data, off + |EncodeCell(cols[0].kind, row[0])|, cols[1..]) == Some((row[1..], off + |EncodeRow(cols, row)|))
    ensures RowFrom(data, off, cols) == Some((row, off + |EncodeRow(cols, row)|))
  {
    var head, tail := EncodeCell(cols[0].kind, row[0]), EncodeRow(cols[1..], row[1..]);
    var mid := off + |head|;
    assert mid <= |data| && data[off..mid] == head by {
      assert EncodeRow(cols, row) == head + tail;
      SliceSplit(data, off, head, tail);
    }
    RowConsEncoded(data, off, cols, row, mid, off + |EncodeRow(cols, row)|);
  }

  /** A row held from `off` reads back. */
  lemma {:induction false} RowEncodedAt(data: seq<byte>, off: nat, cols: seq<Column>, row: seq<Cell>)
    requires RowFits(cols, row) && off + |EncodeRow(cols, row)| <= |data|
    requires data[off..off + |EncodeRow(cols, row)|] == EncodeRow(cols, row)
    ensures RowFrom(data, off, cols) == Some((row, off + |EncodeRow(cols, row)|))
    decreases |row|
  {
    if row != [] {
      RowHeadHeld(data, off, cols, row);
      RowEncodedAt(data, off + |EncodeCell(cols[0].kind, row[0])|, cols[1..], row[1..]);
      RowStepEncoded(data, off, cols, row);
    }
  }

  lemma RowsCons(data: seq<byte>, off: nat, cols: seq<Column>, n: nat, rows: seq<seq<Cell>>, mid: nat, end: nat)
    requires n > 0 && |rows| == n && RowFrom(data, off, cols) == Some((rows[0], mid))
    requires RowsFrom(data, mid, cols, n - 1) == Some((rows[1..], end))
    ensures RowsFrom(data, off, cols, n) == Some((rows, end))
  {
    RowsStep(data, off, cols, n);
    assert [rows[0]] + rows[1..] == rows;
  }

  /** A row held at `off` followed by rows that read back reads back as one more row. */
  lemma RowsConsEncoded(data: seq<byte>, off: nat, cols: seq<Column>, rows: seq<seq<Cell>>, mid: nat, end: nat)
    requires rows != [] && RowFits(cols, rows[0])
    requires mid == off + |EncodeRow(cols, rows[0])| <= |data|
    requires data[off..mid] == EncodeRow(cols, rows[0])
    requires RowsFrom(data, mid, cols, |rows| - 1) == Some((rows[1..], end))
    ensures RowsFrom(data, off, cols, |rows|) == Some((rows, end))
  {
    RowEncodedAt(data, off, cols, rows[0]);
    RowsCons(data, off, cols, |rows|, rows, mid, end);
  }

  /** Rows held from `off` read back. */
  lemma {:induction false} RowsEncodedAt(data: seq<byte>, off: nat, cols: seq<Column>, rows: seq<seq<Cell>>)
    requires RowsFit(cols, rows) && off + |EncodeRows(cols, rows)| <= |data|
    requires data[off..off + |EncodeRows(cols, rows)|] == EncodeRows(cols, rows)
    ensures RowsFrom(data, off, cols, |rows|) == Some((rows, off + |EncodeRows(cols, rows)|))
    decreases |rows|
  {
    if rows != [] {
      var head, tail := EncodeRow(cols, rows[0]), EncodeRows(cols, rows[1..]);
      var mid := off + |head|;
      assert |EncodeRows(cols, rows)| == |head| + |tail| && mid + |tail| <= |data|
        && data[off..mid] == head && data[mid..mid + |tail|] == tail by {
        assert EncodeRows(cols, rows) == head + tail;
        SliceSplit(data, off, head, tail);
      }
      RowsEncodedAt(data, mid, cols, rows[1..]);
      RowsConsEncoded(data, off, cols, rows, mid, mid + |tail|);
    }
  }

  lemma RowsEncoded(pre: seq<byte>, cols: seq<Column>, rows: seq<seq<Cell>>, post: seq<byte>)
    requires RowsFit(cols, rows)
    ensures RowsFrom(pre + EncodeRows(cols, rows) + post, |pre|, cols, |rows|) == Some((rows, |pre| + |EncodeRows(cols, rows)|))
  {
    var data := pre + EncodeRows(cols, rows) + post;
    assert data[|pre|..|pre| + |EncodeRows(cols, rows)|] == EncodeRows(cols, rows);
    RowsEncodedAt(data, |pre|, cols, rows);
  }

  /** The two counts at the front of an encoded table. */
  lemma CountsEncoded(nc: nat, nr: nat, rest: seq<byte>)
    requires nc < 0x8000_0000 && nr < 0x8000_0000
    ensures I32BE(EncodeI32BE(nc) + EncodeI32BE(nr) + rest, 0) == nc
    ensures I32BE(EncodeI32BE(nc) + EncodeI32BE(nr) + rest, 4) == nr
    ensures |EncodeI32BE(nc) + EncodeI32BE(nr) + rest| >= 8
  {
    var a, b := EncodeI32BE(nc), EncodeI32BE(nr);
    assert a + b + rest == [] + a + (b + rest);
    I32BERoundTrip(nc, [], b + rest);
    I32BERoundTrip(nr, a, rest);
  }

  /** Decoding the bytes the table writer produces gives the table back. */
  lemma DatatableRoundTrip(t: Datatable)
    requires Writable(t)
    ensures DatatableSpec(EncodeDatatable(t)) == Table(t)
  {
    var counts := EncodeI32BE(|t.columns|) + EncodeI32BE(|t.rows|);
    var cb := EncodeColumns(t.columns);
    var rb := EncodeRows(t.columns, t.rows);
    var data := EncodeDatatable(t);
    assert data == EncodeI32BE(|t.columns|) + EncodeI32BE(|t.rows|) + (cb + rb);
    CountsEncoded(|t.columns|, |t.rows|, cb + rb);
    assert data == counts + cb + rb;
    ColumnsEncoded(counts, t.columns, rb);
    assert data == (counts + cb) + rb + [];
    RowsEncoded(counts + cb, t.columns, t.rows, []);
  }

  // ---------------------------------------------------------------------
  // Shader type, effect references and required stats

  /** `detectShaderType`: the first of particle, water, blend, alpha, emis the name contains. */
  function DetectShaderType(effectName: string): (r: string)
    ensures r in {"particle", "water", "blend", "alpha", "emissive", "standard"}
    ensures Text.Contains(effectName, "particle") <==> r == "particle"
    ensures r == "standard" <==>
      !Text.Contains(effectName, "particle") && !Text.Contains(effectName, "water") && !Text.Contains(effectName, "blend") &&
      !Text.Contains(effectName, "alpha") && !Text.Contains(effectName, "emis")
  {
    if Text.Contains(effectName, "particle") then "particle"
    else if Text.Contains(effectName, "water") then "water"
    else if Text.Contains(effectName, "blend") then "blend"
    else if Text.Contains(effectName, "alpha") then "alpha"
    else if Text.Contains(effectName, "emis") then "emissive"
    else "standard"
  }

  /** Each class is chosen exactly when its keyword occurs and no earlier keyword does. */
  lemma ShaderTypePriority(effectName: string)
    ensures DetectShaderType(effectName) == "water" <==>
      !Text.Contains(effectName, "particle") && Text.Contains(effectName, "water")
    ensures DetectShaderType(effectName) == "blend" <==>
      !Text.Contains(effectName, "particle") && !Text.Contains(effectName, "water") && Text.Contains(effectName, "blend")
    ensures DetectShaderType(effectName) == "alpha" <==>
      !Text.Contains(effectName, "particle") && !Text.Contains(effectName, "water") && !Text.Contains(effectName, "blend") &&
      Text.Contains(effectName, "alpha")
    ensures DetectShaderType(effectName) == "emissive" <==>
      !Text.Contains(effectName, "particle") && !Text.Contains(effectName, "water") && !Text.Contains(effectName, "blend") &&
      !Text.Contains(effectName, "alpha") && Text.Contains(effectName, "emis")
  {
  }

  /** The effect name an EFCT leaf contributes: its payload as ASCII with every NUL removed, if that is not empty. */
  function EffectName(c: IffLoader.Chunk): (r: Option<string>)
    ensures r.Some? ==> r.value != [] && '\0' !in r.value
    ensures r.Some? ==> c.tag == "EFCT" && c.data.Some?
  {
    if c.tag == "EFCT" && c.data.Some? then
      var name := Text.RemoveAll(AsciiNode(c.data.value), '\0');
      if name != [] then Some(name) else None
    else None
  }

  /** The names `findEffectReferences` collects from a list of top-level chunks, in order. */
  function EffectNames(chunks: seq<IffLoader.Chunk>): (r: seq<string>)
    ensures |r| <= |chunks|
    ensures forall k :: 0 <= k < |r| ==> r[k] != [] && '\0' !in r[k]
  {
    if chunks == [] then []
    else match EffectName(chunks[0])
      case None => EffectNames(chunks[1..])
      case Some(name) => [name] + EffectNames(chunks[1..])
  }

  /** `findEffectReferences` over the last parse's top-level chunks. */
  method FindEffectReferences(chunks: seq<IffLoader.Chunk>) returns (effects: seq<string>)
    ensures effects == EffectNames(chunks)
  {
    effects := [];
    var i := 0;
    while i < |chunks|
      invariant i <= |chunks|
      invariant effects + EffectNames(chunks[i..]) == EffectNames(chunks)
    {
      assert chunks[i..][1..] == chunks[i + 1..];
      var chunk := chunks[i];
      if chunk.tag == "EFCT" && chunk.data.Some? {
        var effectName := Text.RemoveAll(AsciiNode(chunk.data.value), '\0');
        if effectName != [] {
          assert effects + [effectName] + EffectNames(chunks[i + 1..]) == effects + ([effectName] + EffectNames(chunks[i + 1..]));
          effects := effects + [effectName];
        }
      }
      i := i + 1;
    }
  }

  /** The references of two lists of chunks are the references of each, in order. */
  lemma {:induction false} EffectNamesAppend(a: seq<IffLoader.Chunk>, b: seq<IffLoader.Chunk>)
    ensures EffectNames(a + b) == EffectNames(a) + EffectNames(b)
    decreases |a|
  {
    if a != [] {
      assert (a + b)[0] == a[0] && (a + b)[1..] == a[1..] + b;
      EffectNamesAppend(a[1..], b);
      var rest := EffectNames(a[1..]) + EffectNames(b);
      if EffectName(a[0]).Some? {
        var name := EffectName(a[0]).value;
        assert EffectNames(a + b) == [name] + rest;
        assert EffectNames(a) + EffectNames(b) == ([name] + EffectNames(a[1..])) + EffectNames(b);
      }
    } else {
      assert a + b == b;
    }
  }

  /** An EFCT leaf whose payload is a non-empty NUL-free ASCII name contributes exactly that name; other chunks nothing. */
  lemma EffectLeaf(c: IffLoader.Chunk, name: string)
    requires NulFreeAscii(name) && name != [] && c.tag == "EFCT" && c.data == Some(AsciiBytes(name))
    ensures EffectNames([c]) == [name]
  {
    AsciiRoundTrip(name);
    assert [c][1..] == [];
  }

  /** A container (its data is null) never contributes, whatever its tag. */
  lemma ContainersContributeNothing(c: IffLoader.Chunk)
    requires c.data.None?
    ensures EffectNames([c]) == []
  {
    assert [c][1..] == [];
  }

  /** JavaScript truthiness of a decoded cell; a float is falsy when it is a zero or a NaN. */
  predicate Truthy(c: Cell)
  {
    match c
    case IntCell(i) => i != 0
    case FloatCell(bits) =>
      |bits| == 4 &&
      var exponent := (bits[0] as int % 128) * 2 + bits[1] as int / 128;
      var mantissaZero := bits[1] as int % 128 == 0 && bits[2] == 0 && bits[3] == 0;
      !(exponent == 0 && mantissaZero) && !(exponent == 255 && !mantissaZero)
    case TextCell(s) => s != []
    case Unset => false
  }

  /**
   * `row[key]` for a row object built by assigning each column's value in
   * column order: the last assigned value, skipped columns assigning nothing.
   */
  function RowValue(cols: seq<Column>, row: seq<Cell>, key: string): (r: Option<Cell>)
    requires |row| == |cols|
    ensures r.Some? ==> r.value != Unset
    ensures r.None? <==> forall j :: 0 <= j < |cols| && cols[j].name == key ==> row[j] == Unset
    decreases |row|
  {
    if row == [] then None
    else
      var last := |row| - 1;
      if cols[last].name == key && row[last] != Unset then Some(row[last])
      else RowValue(cols[..last], row[..last], key)
  }

  /** The row object, built by assigning the cells one column at a time. */
  function RowObject(cols: seq<Column>, row: seq<Cell>): map<string, Cell>
    requires |row| == |cols|
    decreases |row|
  {
    if row == [] then map[]
    else
      var last := |row| - 1;
      var before := RowObject(cols[..last], row[..last]);
      if row[last] == Unset then before else before[cols[last].name := row[last]]
  }

  /** Looking a key up in the assigned object is `RowValue`. */
  lemma {:induction false} RowValueIsLookup(cols: seq<Column>, row: seq<Cell>, key: string)
    requires |row| == |cols|
    ensures RowValue(cols, row, key) == (if key in RowObject(cols, row) then Some(RowObject(cols, row)[key]) else None)
    decreases |row|
  {
    if row != [] {
      RowValueIsLookup(cols[..|row| - 1], row[..|row| - 1], key);
    }
  }

  /** `value || 0`. */
  function OrZero(v: Option<Cell>): (r: Cell)
    ensures v.None? ==> r == IntCell(0)
    ensures v.Some? && Truthy(v.value) ==> r == v.value
    ensures v.Some? && !Truthy(v.value) ==> r == IntCell(0)
  {
    if v.Some? && Truthy(v.value) then v.value else IntCell(0)
  }

  datatype RequiredStats = RequiredStats(health: Cell, action: Cell, mind: Cell)

  /** `parseRequiredStats`. */
  function ParseRequiredStats(cols: seq<Column>, row: seq<Cell>): (r: RequiredStats)
    requires |row| == |cols|
    ensures (forall j :: 0 <= j < |cols| && cols[j].name == "req_health" ==> row[j] == Unset) ==> r.health == IntCell(0)
    ensures (forall j :: 0 <= j < |cols| && cols[j].name == "req_action" ==> row[j] == Unset) ==> r.action == IntCell(0)
    ensures (forall j :: 0 <= j < |cols| && cols[j].name == "req_mind" ==> row[j] == Unset) ==> r.mind == IntCell(0)
    ensures Truthy(r.health) || r.health == IntCell(0)
    ensures Truthy(r.action) || r.action == IntCell(0)
    ensures Truthy(r.mind) || r.mind == IntCell(0)
  {
    RequiredStats(OrZero(RowValue(cols, row, "req_health")), OrZero(RowValue(cols, row, "req_action")), OrZero(RowValue(cols, row, "req_mind")))
  }

  /** A non-zero integer in the last `req_health` column is the health requirement. */
  lemma RequiredHealthFromLastColumn(cols: seq<Column>, row: seq<Cell>, v: int)
    requires |row| == |cols| && |cols| > 0
    requires cols[|cols| - 1].name == "req_health" && row[|row| - 1] == IntCell(v) && v != 0
    ensures ParseRequiredStats(cols, row).health == IntCell(v)
  {
  }
}
