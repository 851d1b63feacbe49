/**
 What the forwarding handler may release of an upstream result: a function of
 the result, the limits, the masking index and the query's decision, and the
 properties the proxy promises of it.
 */
module Resultset {
  import opened Common
  import opened TextRow
  import opened Decisions
  import opened Masking

  // ----- columns

  datatype MysqlType =
    | Tiny | Short | Long | Float | Double | LongLong | Int24 | Year | Decimal | NewDecimal
    | Date | NewDate | Time | Time2 | Timestamp | Timestamp2 | Datetime | Datetime2
    | Bit | Vector | TinyBlob | MediumBlob | LongBlob | Blob | VarString | String | OtherType

  /** A *mysql.Field; the pointer itself may be nil, which is None. */
  datatype Column = Column(schema: string, orgTable: string, orgName: string, mysqlType: MysqlType, binaryFlag: bool)

  function MaskingTypeFamily(t: MysqlType, binaryFlag: bool): TypeFamily {
    match t
    case Tiny | Short | Long | Float | Double | LongLong | Int24 | Year | Decimal | NewDecimal => TypeNumeric
    case Date | NewDate => TypeDate
    case Time | Time2 => TypeTime
    case Timestamp | Timestamp2 | Datetime | Datetime2 => TypeTimestamp
    case OtherType => TypeText
    case _ => if binaryFlag then TypeBinary else TypeText
  }

  const NUMERIC_TYPES := {Tiny, Short, Long, Float, Double, LongLong, Int24, Year, MysqlType.Decimal, NewDecimal}
  const STRING_TYPES := {Bit, Vector, TinyBlob, MediumBlob, LongBlob, Blob, VarString, MysqlType.String}

  /** Which types each family holds; strings are told apart by the binary flag,
      and a type that is not known is text. */
  lemma FamilyIff(t: MysqlType, binaryFlag: bool)
    ensures var family := MaskingTypeFamily(t, binaryFlag);
            && (family == TypeNumeric <==> t in NUMERIC_TYPES)
            && (family == TypeDate <==> t == Date || t == NewDate)
            && (family == TypeTime <==> t == MysqlType.Time || t == Time2)
            && (family == TypeTimestamp <==> t == Timestamp || t == Timestamp2 || t == Datetime || t == Datetime2)
            && (family == TypeBinary <==> t in STRING_TYPES && binaryFlag)
            && (family == TypeText <==> t == OtherType || (t in STRING_TYPES && !binaryFlag))
  {
    match t
    case Tiny | Short | Long | Float | Double | LongLong | Int24 | Year | Decimal | NewDecimal =>
    case Date | NewDate =>
    case Time | Time2 =>
    case Timestamp | Timestamp2 | Datetime | Datetime2 =>
    case Bit | Vector | TinyBlob | MediumBlob | LongBlob | Blob | VarString | String =>
    case OtherType =>
  }

  function MaskingField(column: Option<Column>): Field {
    match column
    case None => Field("", "", "", NoFamily)
    case Some(c) => Field(c.schema, c.orgTable, c.orgName, MaskingTypeFamily(c.mysqlType, c.binaryFlag))
  }

  predicate OriginFree(column: Option<Column>) {
    column.None? || (column.value.schema == "" && column.value.orgTable == "" && column.value.orgName == "")
  }

  /** expressionAllowsPassthrough. */
  predicate Passthrough(decision: Decision, i: nat, column: Option<Column>, columns: nat)
    requires i < columns
  {
    && |decision.contexts| == columns
    && OriginFree(column)
    && (|| decision.contexts[i].safeBuiltin
        || decision.contexts[i].kind == ExpressionCountStar
        || (decision.kind == AllowOperationalRead && decision.contexts[i].kind == ExpressionLiteral))
  }

  /** An expression in this context may be shown in the results of a query of
      this kind. */
  predicate Shown(kind: DecisionKind, context: ExpressionContext) {
    context.safeBuiltin
    || match context.kind
       case ExpressionCountStar => true
       case ExpressionLiteral => kind == AllowOperationalRead
       case ExpressionColumn | ExpressionSafeBuiltin | ExpressionUnknown => false
  }

  /** A rule names the table and the column that the values come from. */
  predicate AllowedByRule(index: Index, column: Option<Column>) {
    column.Some? && index.Allowed(Field(column.value.schema, column.value.orgTable, column.value.orgName, NoFamily))
  }

  /** The values of this column reach the client unmasked: a rule allows it, or
      it comes from no table at all and every column has a context, its own one
      that may be shown. */
  predicate Visible(index: Index, decision: Decision, columns: seq<Option<Column>>, i: nat)
    requires i < |columns|
  {
    match columns[i]
    case Some(Column(schema, table, name, _, _)) =>
      if schema == "" && table == "" && name == "" then
        |decision.contexts| == |columns| && Shown(decision.kind, decision.contexts[i])
      else AllowedByRule(index, columns[i])
    case None => |decision.contexts| == |columns| && Shown(decision.kind, decision.contexts[i])
  }

  /** Rules and expression contexts never speak of the same column: a value
      passes by exactly one of them, or not at all. */
  lemma VisibleIff(index: Index, decision: Decision, columns: seq<Option<Column>>, i: nat)
    requires i < |columns|
    ensures Visible(index, decision, columns, i) <==>
              Passthrough(decision, i, columns[i], |columns|) || index.Allowed(MaskingField(columns[i]))
    ensures !(Passthrough(decision, i, columns[i], |columns|) && index.Allowed(MaskingField(columns[i])))
  {
  }

  // ----- cell values and the wire library's conversions

  datatype Scalar = Unsigned(n: nat) | Signed(i: int) | Floating(r: real) | Text(s: Bytes)

  /** A mysql.FieldValue; None is the NULL value. */
  type FieldValue = Option<Scalar>

  type Slice = b: Bytes | |b| <= MAX_LENGTH witness []

  /** The wire library's conversions between cell text and values. Both may fail. */
  datatype Library = Library(parse: (Option<Column>, Bytes) -> Option<Scalar>, format: Scalar -> Option<Slice>)

  function ParseCells(lib: Library, columns: seq<Option<Column>>, cells: seq<Value>): (r: Option<seq<FieldValue>>)
    requires |columns| == |cells|
    ensures r.Some? ==> |r.value| == |cells| && forall i :: 0 <= i < |cells| ==> (r.value[i].None? <==> cells[i].None?)
  {
    if cells == [] then Some([])
    else
      match ParseCells(lib, columns[1..], cells[1..])
      case None => None
      case Some(rest) =>
        if cells[0].None? then Some([None] + rest)
        else
          match lib.parse(columns[0], cells[0].value)
          case None => None
          case Some(scalar) => Some([Some(scalar)] + rest)
  }

  /** RowData.Parse in text mode. */
  function ParseRow(lib: Library, columns: seq<Option<Column>>, rowData: Bytes): (r: Option<seq<FieldValue>>)
    ensures r.Some? ==> |r.value| == |columns|
  {
    match DecodeRow(rowData, |columns|)
    case None => None
    case Some(cells) => ParseCells(lib, columns, cells)
  }

  /** fieldValueBytes. */
  function CellBytes(lib: Library, v: FieldValue): (r: Option<Value>)
    ensures r.Some? ==> (r.value.None? <==> v.None?) && (r.value.Some? ==> |r.value.value| <= MAX_LENGTH)
  {
    match v
    case None => Some(None)
    case Some(scalar) =>
      match lib.format(scalar)
      case None => None
      case Some(raw) => Some(Some(raw))
  }

  function FormatCells(lib: Library, values: seq<FieldValue>): (r: Option<seq<Value>>)
    ensures r.Some? ==> |r.value| == |values| && Representable(r.value)
    ensures r.Some? <==> forall i :: 0 <= i < |values| ==> CellBytes(lib, values[i]).Some?
    ensures r.Some? ==> forall i :: 0 <= i < |values| ==> CellBytes(lib, values[i]) == Some(r.value[i])
  {
    if values == [] then Some([])
    else
      match CellBytes(lib, values[0])
      case None => None
      case Some(cell) =>
        assert forall i :: 1 <= i < |values| ==> values[i] == values[1..][i - 1];
        match FormatCells(lib, values[1..])
        case None => None
        case Some(rest) => Some([cell] + rest)
  }

  /** rowDataFromValues. */
  function EncodeValues(lib: Library, values: seq<FieldValue>): Option<Bytes> {
    match FormatCells(lib, values)
    case None => None
    case Some(cells) => Some(EncodeRow(cells))
  }

  ghost predicate Formattable(lib: Library, rows: seq<seq<FieldValue>>) {
    forall i :: 0 <= i < |rows| ==> EncodeValues(lib, rows[i]).Some?
  }

  function EncodeRows(lib: Library, rows: seq<seq<FieldValue>>): seq<Bytes>
    requires Formattable(lib, rows)
  {
    seq(|rows|, i requires 0 <= i < |rows| => EncodeValues(lib, rows[i]).value)
  }

  // ----- sizes

  function SizeOf(rowDatas: seq<Bytes>): nat {
    if rowDatas == [] then 0 else SizeOf(rowDatas[..|rowDatas| - 1]) + |rowDatas[|rowDatas| - 1]|
  }

  lemma {:induction false} SizeOfPrefix(rowDatas: seq<Bytes>, n: nat)
    requires n <= |rowDatas|
    ensures SizeOf(rowDatas[..n]) <= SizeOf(rowDatas)
  {
    if n == |rowDatas| {
      assert rowDatas[..n] == rowDatas;
    } else {
      var front := rowDatas[..|rowDatas| - 1];
      SizeOfPrefix(front, n);
      assert front[..n] == rowDatas[..n];
    }
  }

  datatype Limits = Limits(maxQueryBytes: int, maxResultRows: int, maxResultBytes: int)
  {
    /** Results are limited in rows or in bytes. */
    predicate Set() {
      maxResultRows > 0 || maxResultBytes > 0
    }
  }

  // ----- results

  /** The parts of a *mysql.Result the handler looks at. Without a resultset
      (a nil embedded pointer) there are no columns and no rows. */
  datatype View = View(
    moreResults: bool,
    streamHandle: bool,
    hasSet: bool,
    columns: seq<Option<Column>>,
    rowDatas: seq<Bytes>,
    values: seq<seq<FieldValue>>,
    streaming: bool,
    streamingDone: bool)
  {
    predicate IsStreaming() {
      streamHandle || (hasSet && streaming)
    }

    predicate HasResultset() {
      IsStreaming() || (hasSet && columns != [])
    }

    function RowCount(): nat {
      if !hasSet then 0 else if rowDatas != [] then |rowDatas| else |values|
    }

    function EncodedBytes(): nat {
      if hasSet then SizeOf(rowDatas) else 0
    }
  }

  predicate RowsOver(limits: Limits, v: View) {
    limits.maxResultRows > 0 && v.RowCount() > limits.maxResultRows
  }

  predicate BytesOver(limits: Limits, v: View) {
    limits.maxResultBytes > 0 && v.EncodedBytes() > limits.maxResultBytes
  }

  /** normalizeBufferedResultset. */
  function Normalized(v: View): View {
    if !v.hasSet || (v.columns == [] && v.rowDatas == [] && v.values == []) then v
    else v.(streaming := false, streamingDone := false)
  }

  /** The rows in encoded form: ensureBufferedRowDatas. */
  ghost function Buffered(lib: Library, v: View): Option<View> {
    if !v.hasSet || v.rowDatas != [] || v.values == [] then Some(v)
    else if Formattable(lib, v.values) then Some(v.(rowDatas := EncodeRows(lib, v.values)))
    else None
  }

  // ----- masking

  function MaskCell(index: Index, decision: Decision, columns: seq<Option<Column>>, i: nat, cell: Value): Value
    requires i < |columns|
  {
    if Passthrough(decision, i, columns[i], |columns|) then cell else index.Mask(MaskingField(columns[i]), cell)
  }

  function MaskCells(index: Index, decision: Decision, columns: seq<Option<Column>>, cells: seq<Value>): (r: seq<Value>)
    requires |cells| == |columns|
    ensures |r| == |cells|
  {
    seq(|cells|, i requires 0 <= i < |cells| => MaskCell(index, decision, columns, i, cells[i]))
  }

  /** The number of cells a and b differ in. */
  function Changed(a: seq<Value>, b: seq<Value>): nat
    requires |a| == |b|
  {
    if a == [] then 0
    else Changed(a[..|a| - 1], b[..|b| - 1]) + if a[|a| - 1] == b[|b| - 1] then 0 else 1
  }

  /** The cells of an upstream row as the masker sees them: parsed, then
      formatted as text again. */
  function SourceCells(lib: Library, columns: seq<Option<Column>>, rowData: Bytes): (r: Option<seq<Value>>)
    ensures r.Some? ==> |r.value| == |columns| && Representable(r.value)
  {
    match ParseRow(lib, columns, rowData)
    case None => None
    case Some(values) => FormatCells(lib, values)
  }

  datatype MaskedRow = MaskedRow(rowData: Bytes, values: seq<FieldValue>, changed: nat)

  /** maskRow, on the parsed values of one row; None when a cell cannot be
      formatted or parsed again. */
  function MaskValues(lib: Library, index: Index, decision: Decision, columns: seq<Option<Column>>,
                      values: seq<FieldValue>): Option<MaskedRow>
    requires |values| == |columns|
  {
    match FormatCells(lib, values)
    case None => None
    case Some(cells) =>
      var masked := MaskCells(index, decision, columns, cells);
      match ParseRow(lib, columns, EncodeRow(masked))
      case None => None
      case Some(parsed) => Some(MaskedRow(EncodeRow(masked), parsed, Changed(cells, masked)))
  }

  /** One encoded row through the masker. */
  function MaskRow(lib: Library, index: Index, decision: Decision, columns: seq<Option<Column>>,
                   rowData: Bytes): Option<MaskedRow> {
    match ParseRow(lib, columns, rowData)
    case None => None
    case Some(values) => MaskValues(lib, index, decision, columns, values)
  }

  ghost predicate Maskable(lib: Library, index: Index, decision: Decision, columns: seq<Option<Column>>,
                           rowDatas: seq<Bytes>) {
    forall i :: 0 <= i < |rowDatas| ==> MaskRow(lib, index, decision, columns, rowDatas[i]).Some?
  }

  function MaskRows(lib: Library, index: Index, decision: Decision, columns: seq<Option<Column>>,
                    rowDatas: seq<Bytes>): (r: seq<MaskedRow>)
    requires Maskable(lib, index, decision, columns, rowDatas)
    ensures |r| == |rowDatas|
  {
    seq(|rowDatas|, i requires 0 <= i < |rowDatas| => MaskRow(lib, index, decision, columns, rowDatas[i]).value)
  }

  function RowBytes(rows: seq<MaskedRow>): (r: seq<Bytes>)
    ensures |r| == |rows|
  {
    seq(|rows|, i requires 0 <= i < |rows| => rows[i].rowData)
  }

  function RowValues(rows: seq<MaskedRow>): (r: seq<seq<FieldValue>>)
    ensures |r| == |rows|
  {
    seq(|rows|, i requires 0 <= i < |rows| => rows[i].values)
  }

  function ChangedCells(rows: seq<MaskedRow>): nat {
    if rows == [] then 0 else ChangedCells(rows[..|rows| - 1]) + rows[|rows| - 1].changed
  }

  predicate NeedsMasking(policy: Option<Index>, v: View) {
    policy.Some? && v.hasSet && v.columns != []
  }

  /** maskResult. */
  ghost function Masked(lib: Library, policy: Option<Index>, decision: Decision, v: View): Option<View> {
    if policy.Some? && v.IsStreaming() then None
    else if !NeedsMasking(policy, v) then Some(v)
    else
      match Buffered(lib, v)
      case None => None
      case Some(b) =>
        if !Maskable(lib, policy.value, decision, v.columns, b.rowDatas) then None
        else
          var rows := MaskRows(lib, policy.value, decision, v.columns, b.rowDatas);
          Some(v.(rowDatas := RowBytes(rows), values := RowValues(rows)))
  }

  ghost function MaskedCount(lib: Library, policy: Option<Index>, decision: Decision, v: View): nat {
    if NeedsMasking(policy, v) && Buffered(lib, v).Some?
       && Maskable(lib, policy.value, decision, v.columns, Buffered(lib, v).value.rowDatas) then
      ChangedCells(MaskRows(lib, policy.value, decision, v.columns, Buffered(lib, v).value.rowDatas))
    else 0
  }

  // ----- the masking loops

  lemma ChangedSnoc(a: seq<Value>, b: seq<Value>, x: Value, y: Value)
    requires |a| == |b|
    ensures Changed(a + [x], b + [y]) == Changed(a, b) + if x == y then 0 else 1
  {
    assert (a + [x])[..|a|] == a && (b + [y])[..|b|] == b;
  }

  /** The state of the loop over the cells of one row after n cells. */
  ghost predicate CellsMasked(lib: Library, index: Index, decision: Decision, columns: seq<Option<Column>>,
                              values: seq<FieldValue>,
                              n: nat, cells: seq<Value>, masked: seq<Value>)
  {
    && n == |cells| == |masked| <= |values| == |columns|
    && (forall k :: 0 <= k < n ==> CellBytes(lib, values[k]) == Some(cells[k]))
    && (forall k :: 0 <= k < n ==> masked[k] == MaskCell(index, decision, columns, k, cells[k]))
  }

  lemma CellsMaskedStep(lib: Library, index: Index, decision: Decision, columns: seq<Option<Column>>,
                        values: seq<FieldValue>,
                        n: nat, cells: seq<Value>, masked: seq<Value>, cell: Value)
    requires CellsMasked(lib, index, decision, columns, values, n, cells, masked)
    requires n < |values| && CellBytes(lib, values[n]) == Some(cell)
    ensures CellsMasked(lib, index, decision, columns, values, n + 1, cells + [cell],
                        masked + [MaskCell(index, decision, columns, n, cell)])
  {
  }

  lemma CellsMaskedAll(lib: Library, index: Index, decision: Decision, columns: seq<Option<Column>>,
                       values: seq<FieldValue>,
                       cells: seq<Value>, masked: seq<Value>)
    requires CellsMasked(lib, index, decision, columns, values, |values|, cells, masked)
    ensures FormatCells(lib, values) == Some(cells)
    ensures masked == MaskCells(index, decision, columns, cells)
  {
    assert FormatCells(lib, values).value == cells;
  }

  /** The state of the loop over the rows after n rows. */
  ghost predicate RowsMasked(lib: Library, index: Index, decision: Decision, columns: seq<Option<Column>>,
                             rowDatas: seq<Bytes>,
                             n: nat, rows: seq<MaskedRow>)
  {
    && n == |rows| <= |rowDatas|
    && forall k :: 0 <= k < n ==> MaskRow(lib, index, decision, columns, rowDatas[k]) == Some(rows[k])
  }

  lemma RowsSnoc(rows: seq<MaskedRow>, next: MaskedRow)
    ensures RowBytes(rows + [next]) == RowBytes(rows) + [next.rowData]
    ensures RowValues(rows + [next]) == RowValues(rows) + [next.values]
    ensures ChangedCells(rows + [next]) == ChangedCells(rows) + next.changed
  {
    assert (rows + [next])[..|rows|] == rows;
  }

  lemma RowsMaskedStep(lib: Library, index: Index, decision: Decision, columns: seq<Option<Column>>,
                       rowDatas: seq<Bytes>,
                       n: nat, rows: seq<MaskedRow>, next: MaskedRow)
    requires RowsMasked(lib, index, decision, columns, rowDatas, n, rows)
    requires n < |rowDatas| && MaskRow(lib, index, decision, columns, rowDatas[n]) == Some(next)
    ensures RowsMasked(lib, index, decision, columns, rowDatas, n + 1, rows + [next])
  {
  }

  lemma RowsMaskedAll(lib: Library, index: Index, decision: Decision, columns: seq<Option<Column>>,
                      rowDatas: seq<Bytes>, rows: seq<MaskedRow>)
    requires RowsMasked(lib, index, decision, columns, rowDatas, |rowDatas|, rows)
    ensures Maskable(lib, index, decision, columns, rowDatas)
    ensures rows == MaskRows(lib, index, decision, columns, rowDatas)
  {
  }

  // ----- what is released

  /** The rows of an upstream result in the form the masker reads, or None when
      the result is refused before masking. */
  ghost function Admitted(lib: Library, limits: Limits, decision: Decision, v: View): Option<View> {
    var n := Normalized(v);
    if n.moreResults then None
    else if decision.kind == AllowSetup && n.HasResultset() then None
    else if limits.Set() && n.IsStreaming() then None
    else
      match Buffered(lib, n)
      case None => None
      case Some(b) => if RowsOver(limits, b) || BytesOver(limits, b) then None else Some(b)
  }

  /** The result handed to the client, or None when it is refused. */
  ghost function Released(lib: Library, policy: Option<Index>, limits: Limits, decision: Decision,
                          v: View): Option<View> {
    match Admitted(lib, limits, decision, v)
    case None => None
    case Some(b) =>
      match Masked(lib, policy, decision, b)
      case None => None
      case Some(m) => if BytesOver(limits, m) then None else Some(m)
  }

  /** The number of masked cells that a query is logged with: that of the
      result it released, and none when it released none. */
  ghost function LoggedCount(lib: Library, policy: Option<Index>, limits: Limits, decision: Decision,
                             delivered: Option<View>): nat {
    if delivered.Some? && Released(lib, policy, limits, decision, delivered.value).Some? then
      MaskedCount(lib, policy, decision, Admitted(lib, limits, decision, delivered.value).value)
    else 0
  }

  // ----- promises

  lemma MaskCellsRepresentable(index: Index, decision: Decision, columns: seq<Option<Column>>, cells: seq<Value>)
    requires |cells| == |columns| && Representable(cells)
    ensures Representable(MaskCells(index, decision, columns, cells))
    ensures forall i :: 0 <= i < |cells| ==> (MaskCells(index, decision, columns, cells)[i].None? <==> cells[i].None?)
  {
  }

  /** A masked row decodes to exactly the masked cells, and its values are the
      parse of those cells. */
  lemma MaskedRowDecodes(lib: Library, index: Index, decision: Decision, columns: seq<Option<Column>>, rowData: Bytes)
    requires MaskRow(lib, index, decision, columns, rowData).Some?
    ensures var row := MaskRow(lib, index, decision, columns, rowData).value;
            var cells := SourceCells(lib, columns, rowData).value;
            && DecodeRow(row.rowData, |columns|) == Some(MaskCells(index, decision, columns, cells))
            && ParseRow(lib, columns, row.rowData) == Some(row.values)
            && row.changed == Changed(cells, MaskCells(index, decision, columns, cells))
  {
    var cells := SourceCells(lib, columns, rowData).value;
    var masked := MaskCells(index, decision, columns, cells);
    MaskCellsRepresentable(index, decision, columns, cells);
    RowRoundTrip(masked, []);
    assert EncodeRow(masked) + [] == EncodeRow(masked);
  }

  predicate SameNulls(a: seq<Value>, b: seq<Value>) {
    |a| == |b| && forall i :: 0 <= i < |a| ==> (a[i].None? <==> b[i].None?)
  }

  lemma SourceKeepsNulls(lib: Library, columns: seq<Option<Column>>, rowData: Bytes)
    requires SourceCells(lib, columns, rowData).Some?
    ensures DecodeRow(rowData, |columns|).Some?
    ensures SameNulls(DecodeRow(rowData, |columns|).value, SourceCells(lib, columns, rowData).value)
  {
    var cells := DecodeRow(rowData, |columns|).value;
    var values := ParseCells(lib, columns, cells).value;
    var source := FormatCells(lib, values).value;
    forall i | 0 <= i < |cells| ensures cells[i].None? <==> source[i].None? {
      assert CellBytes(lib, values[i]) == Some(source[i]);
    }
  }

  /** Buffering keeps the number of rows and the columns. */
  lemma AdmittedForm(lib: Library, limits: Limits, decision: Decision, v: View)
    requires v.hasSet && v.columns != []
    requires Admitted(lib, limits, decision, v).Some?
    ensures decision.kind != AllowSetup
    ensures var b := Admitted(lib, limits, decision, v).value;
            && b.hasSet && b.columns == v.columns && !b.moreResults && !b.streaming && b.streamHandle == v.streamHandle
            && (v.rowDatas != [] ==> b.rowDatas == v.rowDatas)
            && |b.rowDatas| == v.RowCount() && Buffered(lib, b) == Some(b)
            && (limits.maxResultRows > 0 ==> |b.rowDatas| <= limits.maxResultRows)
  {
  }

  /** Which results with columns are admitted; exactly as many rows or bytes as
      the limit are not too many. */
  lemma AdmittedIff(lib: Library, limits: Limits, decision: Decision, v: View)
    requires v.hasSet && v.columns != []
    ensures Admitted(lib, limits, decision, v).Some? <==>
              && !v.moreResults && decision.kind != AllowSetup && (limits.Set() ==> !v.streamHandle)
              && (v.rowDatas != [] || Formattable(lib, v.values))
              && (limits.maxResultRows > 0 ==> v.RowCount() <= limits.maxResultRows)
              && (limits.maxResultBytes > 0 ==>
                    SizeOf(if v.rowDatas != [] then v.rowDatas else EncodeRows(lib, v.values))
                    <= limits.maxResultBytes)
  {
    if v.rowDatas == [] && v.values == [] {
      assert Formattable(lib, v.values) && EncodeRows(lib, v.values) == [];
    }
  }

  /** Which admitted results are released: those whose every row can be read,
      written and read again, and that are within the limit of bytes as masked. */
  lemma ReleasedIff(lib: Library, index: Index, limits: Limits, decision: Decision, v: View)
    requires v.hasSet && v.columns != [] && Admitted(lib, limits, decision, v).Some?
    ensures var rowDatas := Admitted(lib, limits, decision, v).value.rowDatas;
            Released(lib, Some(index), limits, decision, v).Some? <==>
              && !v.streamHandle && Maskable(lib, index, decision, v.columns, rowDatas)
              && (limits.maxResultBytes > 0 ==>
                    SizeOf(RowBytes(MaskRows(lib, index, decision, v.columns, rowDatas))) <= limits.maxResultBytes)
  {
    AdmittedForm(lib, limits, decision, v);
  }

  lemma ReleasedForm(lib: Library, index: Index, limits: Limits, decision: Decision, v: View)
    requires v.hasSet && v.columns != []
    requires Released(lib, Some(index), limits, decision, v).Some?
    ensures Admitted(lib, limits, decision, v).Some?
    ensures var b := Admitted(lib, limits, decision, v).value;
            && b.columns == v.columns && !b.IsStreaming()
            && Maskable(lib, index, decision, v.columns, b.rowDatas)
            && var rows := MaskRows(lib, index, decision, v.columns, b.rowDatas);
               var r := b.(rowDatas := RowBytes(rows), values := RowValues(rows));
               && Released(lib, Some(index), limits, decision, v) == Some(r)
               && !BytesOver(limits, r)
  {
    AdmittedForm(lib, limits, decision, v);
  }

  /** What a client may count on when a result with columns is released under a
      masking policy. */
  lemma ReleasedKeepsShape(lib: Library, index: Index, limits: Limits, decision: Decision, v: View)
    requires v.hasSet && v.columns != []
    requires Released(lib, Some(index), limits, decision, v).Some?
    ensures decision.kind != AllowSetup
    ensures Admitted(lib, limits, decision, v).Some?
    ensures var b := Admitted(lib, limits, decision, v).value;
            var r := Released(lib, Some(index), limits, decision, v).value;
            && !r.moreResults && !r.IsStreaming()
            && r.columns == v.columns
            && (v.rowDatas != [] ==> b.rowDatas == v.rowDatas)
            && r.RowCount() == |r.rowDatas| == |r.values| == |b.rowDatas| == v.RowCount()
            && (limits.maxResultRows > 0 ==> r.RowCount() <= limits.maxResultRows)
            && (limits.maxResultBytes > 0 ==> SizeOf(r.rowDatas) <= limits.maxResultBytes)
            && (forall i :: 0 <= i < |r.rowDatas| ==>
                  && ParseRow(lib, r.columns, r.rowDatas[i]) == Some(r.values[i])
                  && DecodeRow(b.rowDatas[i], |v.columns|).Some?
                  && DecodeRow(r.rowDatas[i], |v.columns|).Some?
                  && SameNulls(DecodeRow(b.rowDatas[i], |v.columns|).value,
                               DecodeRow(r.rowDatas[i], |v.columns|).value))
  {
    AdmittedForm(lib, limits, decision, v);
    ReleasedForm(lib, index, limits, decision, v);
    var b := Admitted(lib, limits, decision, v).value;
    var rows := MaskRows(lib, index, decision, b.columns, b.rowDatas);
    forall i | 0 <= i < |b.rowDatas|
      ensures DecodeRow(b.rowDatas[i], |v.columns|).Some?
      ensures DecodeRow(rows[i].rowData, |v.columns|).Some?
      ensures SameNulls(DecodeRow(b.rowDatas[i], |v.columns|).value, DecodeRow(rows[i].rowData, |v.columns|).value)
      ensures ParseRow(lib, v.columns, rows[i].rowData) == Some(rows[i].values)
    {
      assert MaskRow(lib, index, decision, b.columns, b.rowDatas[i]).Some?;
      MaskedRowDecodes(lib, index, decision, b.columns, b.rowDatas[i]);
      SourceKeepsNulls(lib, b.columns, b.rowDatas[i]);
      var cells := SourceCells(lib, b.columns, b.rowDatas[i]).value;
      MaskCellsRepresentable(index, decision, b.columns, cells);
    }
  }

  // ----- the masked-field count

  /** The positions of the cells two tables differ in. */
  ghost function DifferingCells(a: seq<seq<Value>>, b: seq<seq<Value>>): set<(int, int)>
    requires |a| == |b| && forall i :: 0 <= i < |a| ==> |a[i]| == |b[i]|
  {
    set i: int, j: int | 0 <= i < |a| && 0 <= j < |a[i]| && a[i][j] != b[i][j] :: (i, j)
  }

  ghost function DifferingInRow(i: int, a: seq<Value>, b: seq<Value>): set<(int, int)>
    requires |a| == |b|
  {
    set j: int | 0 <= j < |a| && a[j] != b[j] :: (i, j)
  }

  lemma {:induction false} ChangedCountsRow(i: int, a: seq<Value>, b: seq<Value>)
    requires |a| == |b|
    ensures Changed(a, b) == |DifferingInRow(i, a, b)|
  {
    if a != [] {
      var n := |a| - 1;
      ChangedCountsRow(i, a[..n], b[..n]);
      var front := DifferingInRow(i, a[..n], b[..n]);
      assert (i, n) !in front;
      assert DifferingInRow(i, a, b) == if a[n] == b[n] then front else front + {(i, n)};
    }
  }

  lemma LastRowDiffers(a: seq<seq<Value>>, b: seq<seq<Value>>)
    requires |a| == |b| > 0 && forall i :: 0 <= i < |a| ==> |a[i]| == |b[i]|
    ensures var n := |a| - 1;
            var front, last := DifferingCells(a[..n], b[..n]), DifferingInRow(n, a[n], b[n]);
            |DifferingCells(a, b)| == |front| + |last|
  {
    var n := |a| - 1;
    var front, last := DifferingCells(a[..n], b[..n]), DifferingInRow(n, a[n], b[n]);
    assert front !! last;
    var all := DifferingCells(a, b);
    forall p ensures p in all <==> p in front + last {
      if p in all && p.0 < n {
        assert a[..n][p.0] == a[p.0];
      }
      if p in front {
        assert a[..n][p.0] == a[p.0];
      }
    }
    assert all == front + last;
  }

  /** Adding up the changed cells of each row counts the differing positions. */
  lemma {:induction false} ChangedCellsCountsPositions(rows: seq<MaskedRow>, a: seq<seq<Value>>, b: seq<seq<Value>>)
    requires |rows| == |a| == |b|
    requires forall i :: 0 <= i < |a| ==> |a[i]| == |b[i]| && rows[i].changed == Changed(a[i], b[i])
    ensures ChangedCells(rows) == |DifferingCells(a, b)|
  {
    if rows != [] {
      var n := |rows| - 1;
      ChangedCellsCountsPositions(rows[..n], a[..n], b[..n]);
      ChangedCountsRow(n, a[n], b[n]);
      LastRowDiffers(a, b);
    }
  }

  /** The cells of every row as the masker sees them. */
  ghost function SourceTable(lib: Library, columns: seq<Option<Column>>, rowDatas: seq<Bytes>): (r: seq<seq<Value>>)
    requires forall i :: 0 <= i < |rowDatas| ==> SourceCells(lib, columns, rowDatas[i]).Some?
    ensures |r| == |rowDatas| && forall i :: 0 <= i < |r| ==> |r[i]| == |columns|
  {
    seq(|rowDatas|, i requires 0 <= i < |rowDatas| => SourceCells(lib, columns, rowDatas[i]).value)
  }

  ghost function DecodedTable(columns: nat, rowDatas: seq<Bytes>): (r: seq<seq<Value>>)
    requires forall i :: 0 <= i < |rowDatas| ==> DecodeRow(rowDatas[i], columns).Some?
    ensures |r| == |rowDatas| && forall i :: 0 <= i < |r| ==> |r[i]| == columns
  {
    seq(|rowDatas|, i requires 0 <= i < |rowDatas| => DecodeRow(rowDatas[i], columns).value)
  }

  /** The count that is logged is the number of cells in which the released
      rows, decoded, differ from the rows the masker was given. */
  lemma MaskedCountIsDifferingCells(lib: Library, index: Index, limits: Limits, decision: Decision, v: View)
    requires v.hasSet && v.columns != []
    requires Released(lib, Some(index), limits, decision, v).Some?
    ensures var b := Admitted(lib, limits, decision, v).value;
            var r := Released(lib, Some(index), limits, decision, v).value;
            && (forall i :: 0 <= i < |b.rowDatas| ==> SourceCells(lib, v.columns, b.rowDatas[i]).Some?)
            && (forall i :: 0 <= i < |r.rowDatas| ==> DecodeRow(r.rowDatas[i], |v.columns|).Some?)
            && |r.rowDatas| == |b.rowDatas|
            && MaskedCount(lib, Some(index), decision, b)
               == |DifferingCells(SourceTable(lib, v.columns, b.rowDatas), DecodedTable(|v.columns|, r.rowDatas))|
  {
    AdmittedForm(lib, limits, decision, v);
    ReleasedForm(lib, index, limits, decision, v);
    var b := Admitted(lib, limits, decision, v).value;
    var rows := MaskRows(lib, index, decision, v.columns, b.rowDatas);
    forall i | 0 <= i < |rows|
      ensures SourceCells(lib, v.columns, b.rowDatas[i]).Some?
      ensures DecodeRow(RowBytes(rows)[i], |v.columns|).Some?
      ensures rows[i].changed
              == Changed(SourceCells(lib, v.columns, b.rowDatas[i]).value,
                         DecodeRow(RowBytes(rows)[i], |v.columns|).value)
    {
      assert MaskRow(lib, index, decision, v.columns, b.rowDatas[i]).Some?;
      MaskedRowDecodes(lib, index, decision, v.columns, b.rowDatas[i]);
    }
    ChangedCellsCountsPositions(rows, SourceTable(lib, v.columns, b.rowDatas),
                                DecodedTable(|v.columns|, RowBytes(rows)));
  }

  // ----- confinement

  /** Two rows with the same NULLs that agree in every visible column. */
  predicate LookAlike(index: Index, decision: Decision, columns: seq<Option<Column>>, a: seq<Value>, b: seq<Value>) {
    && |a| == |b| == |columns|
    && SameNulls(a, b)
    && forall i :: 0 <= i < |columns| && Visible(index, decision, columns, i) ==> a[i] == b[i]
  }

  lemma {:induction false} ParsedCell(lib: Library, columns: seq<Option<Column>>, cells: seq<Value>, i: nat)
    requires |columns| == |cells| && i < |cells| && ParseCells(lib, columns, cells).Some?
    ensures ParseCells(lib, columns, cells).value[i]
            == if cells[i].None? then None else lib.parse(columns[i], cells[i].value)
    decreases i
  {
    var parsed := ParseCells(lib, columns, cells).value;
    var rest := ParseCells(lib, columns[1..], cells[1..]).value;
    assert parsed == [parsed[0]] + rest;
    if i > 0 {
      ParsedCell(lib, columns[1..], cells[1..], i - 1);
      assert parsed[i] == rest[i - 1];
    }
  }

  lemma LookAlikeSources(lib: Library, index: Index, decision: Decision, columns: seq<Option<Column>>, a: Bytes,
                         b: Bytes)
    requires SourceCells(lib, columns, a).Some? && SourceCells(lib, columns, b).Some?
    requires LookAlike(index, decision, columns, DecodeRow(a, |columns|).value, DecodeRow(b, |columns|).value)
    ensures LookAlike(index, decision, columns, SourceCells(lib, columns, a).value, SourceCells(lib, columns, b).value)
  {
    SourceKeepsNulls(lib, columns, a);
    SourceKeepsNulls(lib, columns, b);
    var ca, cb := DecodeRow(a, |columns|).value, DecodeRow(b, |columns|).value;
    var va, vb := ParseCells(lib, columns, ca).value, ParseCells(lib, columns, cb).value;
    var sa, sb := SourceCells(lib, columns, a).value, SourceCells(lib, columns, b).value;
    forall i | 0 <= i < |columns| && Visible(index, decision, columns, i) ensures sa[i] == sb[i] {
      ParsedCell(lib, columns, ca, i);
      ParsedCell(lib, columns, cb, i);
      assert CellBytes(lib, va[i]) == Some(sa[i]);
      assert CellBytes(lib, vb[i]) == Some(sb[i]);
    }
  }

  lemma MaskedAlike(index: Index, decision: Decision, columns: seq<Option<Column>>, a: seq<Value>, b: seq<Value>)
    requires LookAlike(index, decision, columns, a, b)
    ensures MaskCells(index, decision, columns, a) == MaskCells(index, decision, columns, b)
  {
    forall i | 0 <= i < |columns|
      ensures MaskCell(index, decision, columns, i, a[i]) == MaskCell(index, decision, columns, i, b[i])
    {
      if !Visible(index, decision, columns, i) {
        MaskHidesValue(index, MaskingField(columns[i]), a[i], b[i]);
      }
    }
  }

  /** Two results that are both released, have the same columns, and whose rows
      have the same NULLs and agree in every passed-through or allowed column. */
  ghost predicate Alike(lib: Library, index: Index, limits: Limits, decision: Decision, v: View, w: View) {
    && v.hasSet && w.hasSet && v.columns == w.columns
    && Released(lib, Some(index), limits, decision, v).Some?
    && Released(lib, Some(index), limits, decision, w).Some?
    && var a, b := Admitted(lib, limits, decision, v).value, Admitted(lib, limits, decision, w).value;
       && |a.rowDatas| == |b.rowDatas|
       && forall i :: 0 <= i < |a.rowDatas| ==> AlikeRows(index, decision, v.columns, a.rowDatas[i], b.rowDatas[i])
  }

  predicate AlikeRows(index: Index, decision: Decision, columns: seq<Option<Column>>, a: Bytes, b: Bytes) {
    && DecodeRow(a, |columns|).Some?
    && DecodeRow(b, |columns|).Some?
    && LookAlike(index, decision, columns, DecodeRow(a, |columns|).value, DecodeRow(b, |columns|).value)
  }

  /** Masking confinement. Two upstream results with columns that look alike are
      released as the same bytes and the same values. */
  lemma MaskingConfines(lib: Library, index: Index, limits: Limits, decision: Decision, v: View, w: View)
    requires v.columns != [] && Alike(lib, index, limits, decision, v, w)
    ensures var r := Released(lib, Some(index), limits, decision, v).value;
            var s := Released(lib, Some(index), limits, decision, w).value;
            r.rowDatas == s.rowDatas && r.values == s.values
  {
    ReleasedForm(lib, index, limits, decision, v);
    ReleasedForm(lib, index, limits, decision, w);
    var a, b := Admitted(lib, limits, decision, v).value, Admitted(lib, limits, decision, w).value;
    var columns := v.columns;
    var ra := MaskRows(lib, index, decision, columns, a.rowDatas);
    var rb := MaskRows(lib, index, decision, columns, b.rowDatas);
    forall i | 0 <= i < |ra| ensures ra[i].rowData == rb[i].rowData && ra[i].values == rb[i].values {
      assert MaskRow(lib, index, decision, columns, a.rowDatas[i]).Some?;
      assert MaskRow(lib, index, decision, columns, b.rowDatas[i]).Some?;
      assert AlikeRows(index, decision, columns, a.rowDatas[i], b.rowDatas[i]);
      LookAlikeSources(lib, index, decision, columns, a.rowDatas[i], b.rowDatas[i]);
      MaskedAlike(index, decision, columns, SourceCells(lib, columns, a.rowDatas[i]).value,
                  SourceCells(lib, columns, b.rowDatas[i]).value);
    }
    assert RowBytes(ra) == RowBytes(rb);
    assert RowValues(ra) == RowValues(rb);
  }

  /** No expression of the query may be shown: none is a safe builtin or COUNT(*),
      none a literal of an operational read, or there are more or fewer contexts
      than columns. */
  predicate NothingShown(decision: Decision, columns: nat) {
    || |decision.contexts| != columns
    || forall i :: 0 <= i < columns ==>
         var context := decision.contexts[i];
         && !context.safeBuiltin && context.kind != ExpressionCountStar
         && !(context.kind == ExpressionLiteral && decision.kind == AllowOperationalRead)
  }

  /** Two rows with the same NULLs that agree in every column a rule allows. */
  predicate AgreeByRules(index: Index, columns: seq<Option<Column>>, a: Bytes, b: Bytes) {
    && DecodeRow(a, |columns|).Some?
    && DecodeRow(b, |columns|).Some?
    && var x, y := DecodeRow(a, |columns|).value, DecodeRow(b, |columns|).value;
       && SameNulls(x, y)
       && forall i :: 0 <= i < |columns| && AllowedByRule(index, columns[i]) ==> x[i] == y[i]
  }

  /** When no expression may be shown, the rules alone decide what a client can
      learn: results that agree in the columns a rule allows are released as the
      same bytes and the same values. */
  lemma ConfinedByRules(lib: Library, index: Index, limits: Limits, decision: Decision, v: View, w: View)
    requires v.columns != [] && v.hasSet && w.hasSet && v.columns == w.columns
    requires Released(lib, Some(index), limits, decision, v).Some?
    requires Released(lib, Some(index), limits, decision, w).Some?
    requires NothingShown(decision, |v.columns|)
    requires var a, b := Admitted(lib, limits, decision, v).value, Admitted(lib, limits, decision, w).value;
             && |a.rowDatas| == |b.rowDatas|
             && forall i :: 0 <= i < |a.rowDatas| ==> AgreeByRules(index, v.columns, a.rowDatas[i], b.rowDatas[i])
    ensures var r := Released(lib, Some(index), limits, decision, v).value;
            var s := Released(lib, Some(index), limits, decision, w).value;
            r.rowDatas == s.rowDatas && r.values == s.values
  {
    var a, b := Admitted(lib, limits, decision, v).value, Admitted(lib, limits, decision, w).value;
    forall i | 0 <= i < |a.rowDatas|
      ensures AlikeRows(index, decision, v.columns, a.rowDatas[i], b.rowDatas[i])
    {
      assert AgreeByRules(index, v.columns, a.rowDatas[i], b.rowDatas[i]);
    }
    MaskingConfines(lib, index, limits, decision, v, w);
  }

  /** What a client sees of a cell: all of it in a visible column, and otherwise
      the mask of the column's type or NULL. */
  function ShownCell(index: Index, decision: Decision, columns: seq<Option<Column>>, i: nat, source: Value): Value
    requires i < |columns|
  {
    if source.None? then None
    else if Visible(index, decision, columns, i) then source
    else Some(Placeholder(MaskingField(columns[i]).typeFamily))
  }

  lemma MaskedCell(index: Index, decision: Decision, columns: seq<Option<Column>>, i: nat, source: Value)
    requires i < |columns|
    ensures MaskCell(index, decision, columns, i, source) == ShownCell(index, decision, columns, i, source)
  {
    VisibleIff(index, decision, columns, i);
  }

  /** Every cell the client gets: NULL where the upstream's is, the upstream's
      own value in a visible column, and the mask of the column's type in any
      other. */
  lemma ReleasedCell(lib: Library, index: Index, limits: Limits, decision: Decision, v: View, j: nat, i: nat)
    requires v.hasSet && i < |v.columns|
    requires Released(lib, Some(index), limits, decision, v).Some?
    requires j < |Released(lib, Some(index), limits, decision, v).value.rowDatas|
    ensures var b := Admitted(lib, limits, decision, v).value;
            var r := Released(lib, Some(index), limits, decision, v).value;
            && |r.rowDatas| == |b.rowDatas|
            && SourceCells(lib, v.columns, b.rowDatas[j]).Some?
            && DecodeRow(r.rowDatas[j], |v.columns|).Some?
            && var source := SourceCells(lib, v.columns, b.rowDatas[j]).value[i];
               DecodeRow(r.rowDatas[j], |v.columns|).value[i] == ShownCell(index, decision, v.columns, i, source)
  {
    ReleasedForm(lib, index, limits, decision, v);
    var b := Admitted(lib, limits, decision, v).value;
    assert MaskRow(lib, index, decision, v.columns, b.rowDatas[j]).Some?;
    MaskedRowDecodes(lib, index, decision, v.columns, b.rowDatas[j]);
    MaskedCell(index, decision, v.columns, i, SourceCells(lib, v.columns, b.rowDatas[j]).value[i]);
  }

  /** A column without origin, when every column has a context: a safe builtin, a
      COUNT(*) and a literal of an operational read reach the client as they are;
      of anything else, a literal of another read included, the client sees only
      whether it is NULL. */
  lemma ExpressionCell(lib: Library, index: Index, limits: Limits, decision: Decision, v: View, j: nat, i: nat)
    requires v.hasSet && i < |v.columns| && OriginFree(v.columns[i]) && |decision.contexts| == |v.columns|
    requires Released(lib, Some(index), limits, decision, v).Some?
    requires j < |Released(lib, Some(index), limits, decision, v).value.rowDatas|
    ensures var rowDatas := Admitted(lib, limits, decision, v).value.rowDatas;
            j < |rowDatas| && SourceCells(lib, v.columns, rowDatas[j]).Some?
    ensures var r := Released(lib, Some(index), limits, decision, v).value;
            DecodeRow(r.rowDatas[j], |v.columns|).Some?
    ensures var source := SourceCells(lib, v.columns, Admitted(lib, limits, decision, v).value.rowDatas[j]).value[i];
            var given := Released(lib, Some(index), limits, decision, v).value.rowDatas[j];
            var cell, context := DecodeRow(given, |v.columns|).value[i], decision.contexts[i];
            if || context.safeBuiltin
               || context.kind == ExpressionCountStar
               || (context.kind == ExpressionLiteral && decision.kind == AllowOperationalRead) then cell == source
            else cell == if source.None? then None else Some(Placeholder(MaskingField(v.columns[i]).typeFamily))
  {
    ReleasedCell(lib, index, limits, decision, v, j, i);
  }

  /** A result without columns is never masked, whatever the policy, the limits
      and the decision: it is released as it was admitted, and refused only when
      it is still streaming. */
  lemma NoColumnsMeansNoMasking(lib: Library, policy: Option<Index>, limits: Limits, decision: Decision, v: View)
    requires !v.hasSet || v.columns == []
    ensures var admitted := Admitted(lib, limits, decision, v);
            && Released(lib, policy, limits, decision, v)
               == (if admitted.Some? && policy.Some? && admitted.value.IsStreaming() then None else admitted)
            && (admitted.Some? ==> MaskedCount(lib, policy, decision, admitted.value) == 0)
  {
  }

  /** Every two results with these columns that look alike are released as the
      same rows. */
  ghost predicate Confined(lib: Library, index: Index, decision: Decision, columns: seq<Option<Column>>) {
    forall limits, v: View, w: View :: v.columns == columns && Alike(lib, index, limits, decision, v, w) ==>
      Released(lib, Some(index), limits, decision, v).value.rowDatas
      == Released(lib, Some(index), limits, decision, w).value.rowDatas
  }

  function Bare(row: Bytes): View {
    View(false, false, true, [], [row], [], false, false)
  }

  lemma BareIsReleased(lib: Library, index: Index, decision: Decision, row: Bytes)
    ensures Admitted(lib, Limits(0, 0, 0), decision, Bare(row)) == Some(Bare(row))
    ensures Released(lib, Some(index), Limits(0, 0, 0), decision, Bare(row)) == Some(Bare(row))
  {
    NoColumnsMeansNoMasking(lib, Some(index), Limits(0, 0, 0), decision, Bare(row));
  }

  /** Masking confines what a client can learn exactly when the result has
      columns. */
  lemma ConfinedIffColumns(lib: Library, index: Index, decision: Decision, columns: seq<Option<Column>>)
    ensures Confined(lib, index, decision, columns) <==> columns != []
  {
    if columns == [] {
      var v, w := Bare([0]), Bare([1]);
      BareIsReleased(lib, index, decision, [0]);
      BareIsReleased(lib, index, decision, [1]);
      assert AlikeRows(index, decision, [], [0], [1]);
      assert Alike(lib, index, Limits(0, 0, 0), decision, v, w);
    } else {
      forall limits, v: View, w: View | v.columns == columns && Alike(lib, index, limits, decision, v, w)
        ensures Released(lib, Some(index), limits, decision, v).value.rowDatas
                == Released(lib, Some(index), limits, decision, w).value.rowDatas
      {
        MaskingConfines(lib, index, limits, decision, v, w);
      }
    }
  }

  // ----- a result with one masked cell

  /** Every value is text and is written as it was read. */
  const PLAIN_TEXT := Library((column, bytes) => Some(Text(bytes)), FormatText)

  function FormatText(scalar: Scalar): Option<Slice> {
    if scalar.Text? && |scalar.s| <= MAX_LENGTH then Some(scalar.s) else None
  }

  const NAME := Some(Column("app", "users", "name", VarString, false))

  function OneCell(raw: Bytes): View {
    View(false, false, true, [NAME], [EncodeRow([Some(raw)])], [], false, false)
  }

  lemma OneCellDecodes(raw: Bytes)
    requires |raw| <= MAX_LENGTH
    ensures DecodeRow(EncodeRow([Some(raw)]), 1) == Some([Some(raw)])
    ensures ParseRow(PLAIN_TEXT, [NAME], EncodeRow([Some(raw)])) == Some([Some(Text(raw))])
  {
    RowRoundTrip([Some(raw)], []);
    assert EncodeRow([Some(raw)]) + [] == EncodeRow([Some(raw)]);
    assert [Some(raw)][1..] == [] && [NAME][1..] == [];
    assert ParseCells(PLAIN_TEXT, [], []) == Some([]);
    assert ParseCells(PLAIN_TEXT, [NAME], [Some(raw)]) == Some([Some(Text(raw))] + []);
    assert [Some(Text(raw))] + [] == [Some(Text(raw))];
    assert ParseRow(PLAIN_TEXT, [NAME], EncodeRow([Some(raw)])) == ParseCells(PLAIN_TEXT, [NAME], [Some(raw)]);
  }

  lemma OneCellFormats(raw: Bytes)
    requires |raw| <= MAX_LENGTH
    ensures FormatCells(PLAIN_TEXT, [Some(Text(raw))]) == Some([Some(raw)])
  {
    var cells := FormatCells(PLAIN_TEXT, [Some(Text(raw))]);
    assert CellBytes(PLAIN_TEXT, Some(Text(raw))) == Some(Some(raw));
    assert cells.value == [Some(raw)];
  }

  lemma OneCellIsMasked(decision: Decision)
    requires decision.contexts == []
    ensures var hidden := Placeholder(TypeText);
            MaskRow(PLAIN_TEXT, Index({}, map[], {}), decision, [NAME], EncodeRow([Some([97])]))
            == Some(MaskedRow(EncodeRow([Some(hidden)]), [Some(Text(hidden))], 1))
  {
    var index, hidden := Index({}, map[], {}), Placeholder(TypeText);
    OneCellDecodes([97]);
    OneCellFormats([97]);
    OneCellDecodes(hidden);
    assert MaskCells(index, decision, [NAME], [Some([97])]) == [Some(hidden)];
    assert Changed([Some([97])], [Some(hidden)]) == 1 by {
      assert [Some([97])][..0] == [] && |hidden| != |[97]|;
    }
  }

  /** A result for which one masked cell is logged. */
  lemma OneCellMasked(decision: Decision)
    requires decision == Decision(AllowRead, [])
    ensures LoggedCount(PLAIN_TEXT, Some(Index({}, map[], {})), Limits(0, 0, 0), decision, Some(OneCell([97]))) == 1
  {
    var index, v := Index({}, map[], {}), OneCell([97]);
    OneCellIsMasked(decision);
    assert Admitted(PLAIN_TEXT, Limits(0, 0, 0), decision, v) == Some(v);
    assert Maskable(PLAIN_TEXT, index, decision, [NAME], v.rowDatas);
    var rows := MaskRows(PLAIN_TEXT, index, decision, [NAME], v.rowDatas);
    assert rows[..0] == [] && ChangedCells(rows) == rows[0].changed;
  }
}
