/**
 Rows of a MySQL text resultset, as the proxy writes them and as the wire
 library reads them back: MySQL Client/Server Protocol, "Text Resultset Row"
 and "Protocol::LengthEncodedInteger".
 */
module TextRow {
  import opened Common

  /** One text-protocol cell; None is SQL NULL. */
  type Value = Option<Bytes>

  const NULL_MARKER: byte := 0xfb

  /** Go slice lengths are signed 64-bit integers. */
  const MAX_LENGTH := 0x7fff_ffff_ffff_ffff

  ghost predicate Representable(row: seq<Value>) {
    forall i :: 0 <= i < |row| && row[i].Some? ==> |row[i].value| <= MAX_LENGTH
  }

  // ----- writing

  function LittleEndian(n: nat, width: nat): (b: Bytes)
    ensures |b| == width
  {
    if width == 0 then [] else [(n % 256) as byte] + LittleEndian(n / 256, width - 1)
  }

  function LengthPrefix(n: nat): Bytes {
    if n <= 250 then [n as byte]
    else if n <= 0xffff then [0xfc] + LittleEndian(n, 2)
    else if n <= 0xff_ffff then [0xfd] + LittleEndian(n, 3)
    else [0xfe] + LittleEndian(n, 8)
  }

  /** What appendMaskingValue appends for one cell. */
  function EncodeCell(cell: Value): Bytes {
    match cell
    case None => [NULL_MARKER]
    case Some(raw) => LengthPrefix(|raw|) + raw
  }

  function EncodeRow(row: seq<Value>): Bytes {
    if row == [] then [] else EncodeCell(row[0]) + EncodeRow(row[1..])
  }

  lemma Associative(a: Bytes, b: Bytes, c: Bytes)
    ensures (a + b) + c == a + (b + c)
  {
  }

  lemma {:induction false} EncodeRowAppend(a: seq<Value>, b: seq<Value>)
    ensures EncodeRow(a + b) == EncodeRow(a) + EncodeRow(b)
  {
    if a == [] {
      assert a + b == b;
    } else {
      var ab := a + b;
      assert ab[0] == a[0] && ab[1..] == a[1..] + b;
      EncodeRowAppend(a[1..], b);
      Associative(EncodeCell(a[0]), EncodeRow(a[1..]), EncodeRow(b));
    }
  }

  lemma EncodeRowSnoc(row: seq<Value>, cell: Value)
    ensures EncodeRow(row + [cell]) == EncodeRow(row) + EncodeCell(cell)
  {
    EncodeRowAppend(row, [cell]);
    assert EncodeRow([cell]) == EncodeCell(cell) + EncodeRow([]);
  }

  // ----- reading

  function FromLittleEndian(b: Bytes): nat {
    if b == [] then 0 else b[0] as nat + 256 * FromLittleEndian(b[1..])
  }

  datatype Prefix = Malformed | NullCell | Length(n: nat, width: nat)

  function ReadPrefix(p: Bytes): Prefix {
    if p == [] then Malformed
    else if p[0] <= 250 then Length(p[0] as nat, 1)
    else if p[0] == NULL_MARKER then NullCell
    else if p[0] == 0xff then Malformed
    else
      var width := if p[0] == 0xfc then 3 else if p[0] == 0xfd then 4 else 9;
      if |p| < width then Malformed else Length(FromLittleEndian(p[1..width]), width)
  }

  /** The cell at the front of p and the bytes after it; None when p is malformed. */
  function ReadCell(p: Bytes): (r: Option<(Value, Bytes)>)
    ensures r.Some? ==> |r.value.1| < |p|
  {
    match ReadPrefix(p)
    case Malformed => None
    case NullCell => Some((None, p[1..]))
    case Length(n, width) =>
      if |p| < width + n then None
      else Some((Some(p[width..width + n]), p[width + n..]))
  }

  /** The first `columns` cells of p; bytes after them are ignored. */
  function DecodeRow(p: Bytes, columns: nat): (r: Option<seq<Value>>)
    ensures r.Some? ==> |r.value| == columns
    decreases columns
  {
    if columns == 0 then Some([])
    else
      match ReadCell(p)
      case None => None
      case Some((cell, rest)) =>
        match DecodeRow(rest, columns - 1)
        case None => None
        case Some(cells) => Some([cell] + cells)
  }

  // ----- round trip

  function Pow256(width: nat): nat {
    if width == 0 then 1 else 256 * Pow256(width - 1)
  }

  lemma {:induction false} LittleEndianRoundTrip(n: nat, width: nat)
    requires n < Pow256(width)
    ensures FromLittleEndian(LittleEndian(n, width)) == n
  {
    if width > 0 {
      LittleEndianRoundTrip(n / 256, width - 1);
      assert LittleEndian(n, width)[1..] == LittleEndian(n / 256, width - 1);
    }
  }

  /** The prefix of each length: the length itself up to 250, and beyond that a
      marker and the length in as few of 2, 3 or 8 bytes as hold it. */
  lemma PrefixShape(n: nat)
    requires n <= MAX_LENGTH
    ensures var p := LengthPrefix(n);
            if n <= 250 then |p| == 1 && p[0] as nat == n
            else
              && FromLittleEndian(p[1..]) == n
              && (n < 0x1_0000 ==> |p| == 3 && p[0] == 0xfc)
              && (0x1_0000 <= n < 0x100_0000 ==> |p| == 4 && p[0] == 0xfd)
              && (n >= 0x100_0000 ==> |p| == 9 && p[0] == 0xfe)
  {
    if n > 250 {
      var width := if n <= 0xffff then 2 else if n <= 0xff_ffff then 3 else 8;
      PowersOf256();
      LittleEndianRoundTrip(n, width);
      assert LengthPrefix(n)[1..] == LittleEndian(n, width);
    }
  }

  lemma PowersOf256()
    ensures Pow256(2) == 0x1_0000 && Pow256(3) == 0x100_0000 && Pow256(8) == 0x1_0000_0000_0000_0000
  {
    assert Pow256(4) == 0x1_0000_0000;
    assert Pow256(6) == 0x1_0000_0000_0000;
  }

  lemma ReadPrefixRoundTrip(n: nat, rest: Bytes)
    requires n <= MAX_LENGTH
    ensures ReadPrefix(LengthPrefix(n) + rest) == Length(n, |LengthPrefix(n)|)
  {
    var p := LengthPrefix(n) + rest;
    if n > 250 {
      var width := |LengthPrefix(n)| - 1;
      assert width == if n <= 0xffff then 2 else if n <= 0xff_ffff then 3 else 8;
      assert p[1..width + 1] == LittleEndian(n, width);
      assert Pow256(2) == 0x1_0000;
      assert Pow256(3) == 0x100_0000;
      assert Pow256(4) == 0x1_0000_0000;
      assert Pow256(8) == 0x1_0000_0000_0000_0000;
      LittleEndianRoundTrip(n, width);
    }
  }

  lemma ReadCellRoundTrip(cell: Value, rest: Bytes)
    requires cell.Some? ==> |cell.value| <= MAX_LENGTH
    ensures ReadCell(EncodeCell(cell) + rest) == Some((cell, rest))
  {
    var p := EncodeCell(cell) + rest;
    match cell
    case None =>
      assert p[1..] == rest;
    case Some(raw) =>
      assert p == LengthPrefix(|raw|) + (raw + rest);
      ReadPrefixRoundTrip(|raw|, raw + rest);
      var width := |LengthPrefix(|raw|)|;
      assert p[width..width + |raw|] == raw;
      assert p[width + |raw|..] == rest;
  }

  lemma DecodeRowStep(p: Bytes, cell: Value, rest: Bytes, cells: seq<Value>)
    requires ReadCell(p) == Some((cell, rest))
    requires DecodeRow(rest, |cells|) == Some(cells)
    ensures DecodeRow(p, |cells| + 1) == Some([cell] + cells)
  {
  }

  lemma RoundTripStep(first: Value, others: seq<Value>, rest: Bytes)
    requires first.Some? ==> |first.value| <= MAX_LENGTH
    requires DecodeRow(EncodeRow(others) + rest, |others|) == Some(others)
    ensures DecodeRow(EncodeRow([first] + others) + rest, |others| + 1) == Some([first] + others)
  {
    var tail := EncodeRow(others) + rest;
    assert EncodeRow([first] + others) == EncodeCell(first) + EncodeRow(others);
    Associative(EncodeCell(first), EncodeRow(others), rest);
    ReadCellRoundTrip(first, tail);
    DecodeRowStep(EncodeCell(first) + tail, first, tail, others);
  }

  /** Decoding what was written gives the row back, whatever bytes follow it. */
  lemma {:induction false} RowRoundTrip(row: seq<Value>, rest: Bytes)
    requires Representable(row)
    ensures DecodeRow(EncodeRow(row) + rest, |row|) == Some(row)
    decreases |row|
  {
    if row != [] {
      RowRoundTrip(row[1..], rest);
      RoundTripStep(row[0], row[1..], rest);
      assert row == [row[0]] + row[1..];
    }
  }

  /** 0xfb starts a cell exactly when the cell is NULL. */
  lemma NullMarkerUnambiguous(cell: Value)
    ensures EncodeCell(cell) != []
    ensures EncodeCell(cell)[0] == NULL_MARKER <==> cell == None
  {
    if cell.Some? {
      var n := |cell.value|;
      assert LengthPrefix(n) != [];
      assert LengthPrefix(n)[0] != NULL_MARKER by {
        if n <= 250 {
          assert LengthPrefix(n)[0] == n as byte;
        }
      }
      assert EncodeCell(cell)[0] == LengthPrefix(n)[0];
    }
  }

  /** Rows of equal width with equal encodings are equal. */
  lemma EncodingInjective(a: seq<Value>, b: seq<Value>)
    requires Representable(a) && Representable(b) && |a| == |b|
    requires EncodeRow(a) == EncodeRow(b)
    ensures a == b
  {
    RowRoundTrip(a, []);
    RowRoundTrip(b, []);
  }
}
