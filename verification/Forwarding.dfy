/**
 The forwarding handler: it owns one upstream connection, runs queries on it,
 reads results within the limits, masks them, and closes the connection on
 everything it refuses.
 */
module Forwarding {
  import opened Common
  import opened TextRow
  import opened Decisions
  import opened Masking
  import opened Resultset
  import opened Trace

  /** A *mysql.Result, changed in place on its way to the client. */
  class Result {
    var moreResults: bool
    var streamHandle: bool
    var hasSet: bool
    var columns: seq<Option<Column>>
    var rowDatas: seq<Bytes>
    var values: seq<seq<FieldValue>>
    var streaming: bool
    var streamingDone: bool

    constructor (v: View)
      ensures Contents() == v
    {
      moreResults, streamHandle, hasSet := v.moreResults, v.streamHandle, v.hasSet;
      columns, rowDatas, values := v.columns, v.rowDatas, v.values;
      streaming, streamingDone := v.streaming, v.streamingDone;
    }

    function Contents(): View
      reads this
    {
      View(moreResults, streamHandle, hasSet, columns, rowDatas, values, streaming, streamingDone)
    }

    /** normalizeBufferedResultset. */
    method Normalize()
      modifies this`streaming, this`streamingDone
      ensures Contents() == Normalized(old(Contents()))
    {
      if !hasSet {
        return;
      }
      if columns == [] && rowDatas == [] && values == [] {
        return;
      }
      streaming := false;
      streamingDone := false;
    }

    /** ensureBufferedRowDatas. */
    method EnsureBuffered(lib: Library) returns (ok: bool)
      modifies this`rowDatas
      ensures ok <==> Buffered(lib, old(Contents())).Some?
      ensures ok ==> Some(Contents()) == Buffered(lib, old(Contents()))
    {
      if !hasSet || rowDatas != [] || values == [] {
        return true;
      }
      var encoded := RowDatasFromValues(lib, values);
      ok := encoded.Some?;
      if ok {
        rowDatas := encoded.value;
      }
    }
  }

  // ----- encoding rows

  method RowDataFromValues(lib: Library, values: seq<FieldValue>) returns (r: Option<Bytes>)
    ensures r == EncodeValues(lib, values)
  {
    var rowData: Bytes := [];
    ghost var cells: seq<Value> := [];
    var i := 0;
    while i < |values|
      invariant 0 <= i <= |values| && |cells| == i
      invariant forall k :: 0 <= k < i ==> CellBytes(lib, values[k]) == Some(cells[k])
      invariant rowData == EncodeRow(cells)
    {
      var raw := CellBytes(lib, values[i]);
      if raw.None? {
        return None;
      }
      EncodeRowSnoc(cells, raw.value);
      rowData := rowData + EncodeCell(raw.value);
      cells := cells + [raw.value];
      i := i + 1;
    }
    var formatted := FormatCells(lib, values);
    assert formatted.value == cells;
    return Some(rowData);
  }

  method RowDatasFromValues(lib: Library, rows: seq<seq<FieldValue>>) returns (r: Option<seq<Bytes>>)
    ensures r.Some? <==> Formattable(lib, rows)
    ensures r.Some? ==> r.value == EncodeRows(lib, rows)
  {
    var rowDatas: seq<Bytes> := [];
    var i := 0;
    while i < |rows|
      invariant 0 <= i <= |rows| && |rowDatas| == i
      invariant forall k :: 0 <= k < i ==> EncodeValues(lib, rows[k]) == Some(rowDatas[k])
    {
      var rowData := RowDataFromValues(lib, rows[i]);
      if rowData.None? {
        return None;
      }
      rowDatas := rowDatas + [rowData.value];
      i := i + 1;
    }
    return Some(rowDatas);
  }

  // ----- reading within the limits

  ghost predicate WithinLimits(lib: Library, limits: Limits, rows: seq<seq<FieldValue>>)
    requires Formattable(lib, rows)
  {
    && (limits.maxResultRows > 0 ==> |rows| <= limits.maxResultRows)
    && (limits.maxResultBytes > 0 ==> SizeOf(EncodeRows(lib, rows)) <= limits.maxResultBytes)
  }

  /** Every row can be written, and all of them are within the limits. */
  ghost predicate Fits(lib: Library, limits: Limits, rows: seq<seq<FieldValue>>) {
    Formattable(lib, rows) && WithinLimits(lib, limits, rows)
  }

  /** Read everything, then check. */
  ghost function ReadThenCheck(lib: Library, limits: Limits, stream: RowStream): Option<View> {
    if stream.end.Some? || !Fits(lib, limits, stream.rows) then None
    else if stream.head.hasSet && stream.head.columns != [] then
      Some(stream.head.(rowDatas := EncodeRows(lib, stream.rows), values := stream.rows,
                        streaming := false, streamingDone := false))
    else Some(stream.head)
  }

  /** The first n rows are encoded as `read` and are within the limits. */
  ghost predicate RowsRead(lib: Library, limits: Limits, rows: seq<seq<FieldValue>>, n: nat, read: seq<Bytes>) {
    && n == |read| <= |rows|
    && (forall k :: 0 <= k < n ==> EncodeValues(lib, rows[k]) == Some(read[k]))
    && (limits.maxResultRows > 0 ==> n <= limits.maxResultRows)
    && (limits.maxResultBytes > 0 ==> SizeOf(read) <= limits.maxResultBytes)
  }

  lemma SizeOfSnoc(rowDatas: seq<Bytes>, next: Bytes)
    ensures SizeOf(rowDatas + [next]) == SizeOf(rowDatas) + |next|
  {
    assert (rowDatas + [next])[..|rowDatas|] == rowDatas;
  }

  lemma RowsReadStep(lib: Library, limits: Limits, rows: seq<seq<FieldValue>>, n: nat, read: seq<Bytes>, rowData: Bytes)
    requires RowsRead(lib, limits, rows, n, read)
    requires n < |rows| && EncodeValues(lib, rows[n]) == Some(rowData)
    requires limits.maxResultRows > 0 ==> n < limits.maxResultRows
    requires limits.maxResultBytes > 0 ==> SizeOf(read) + |rowData| <= limits.maxResultBytes
    ensures RowsRead(lib, limits, rows, n + 1, read + [rowData])
    ensures SizeOf(read + [rowData]) == SizeOf(read) + |rowData|
  {
    SizeOfSnoc(read, rowData);
  }

  /** The number of bytes a row takes, or None when it cannot be written. */
  function RowSize(lib: Library, row: seq<FieldValue>): Option<nat> {
    match EncodeValues(lib, row)
    case None => None
    case Some(rowData) => Some(|rowData|)
  }

  function RowSizes(lib: Library, rows: seq<seq<FieldValue>>): seq<Option<nat>> {
    seq(|rows|, i requires 0 <= i < |rows| => RowSize(lib, rows[i]))
  }

  /** Why reading stops at row i, when the i rows before it took `total` bytes: a
      row too many comes before a row that cannot be written, and that before a
      byte too many. */
  function RefusedAt(limits: Limits, size: Option<nat>, i: nat, total: nat): Option<Error> {
    if limits.maxResultRows > 0 && i >= limits.maxResultRows then Some(RowLimitExceeded)
    else if size.None? then Some(BadRow)
    else if limits.maxResultBytes > 0 && total + size.value > limits.maxResultBytes then Some(ByteLimitExceeded)
    else None
  }

  /** Why reading stops at row i or later. */
  function RefusedFrom(limits: Limits, sizes: seq<Option<nat>>, i: nat, total: nat): Option<Error>
    requires i <= |sizes|
    decreases |sizes| - i
  {
    if i == |sizes| then None
    else
      var refused := RefusedAt(limits, sizes[i], i, total);
      if refused.Some? then refused else RefusedFrom(limits, sizes, i + 1, total + sizes[i].value)
  }

  /** The state of the reading loop after n rows. */
  ghost predicate Reading(lib: Library, limits: Limits, all: seq<seq<FieldValue>>, n: nat, rows: seq<seq<FieldValue>>,
                          read: seq<Bytes>, size: nat)
  {
    n <= |all| && rows == all[..n] && RowsRead(lib, limits, all, n, read) && size == SizeOf(read)
  }

  lemma ReadingStep(lib: Library, limits: Limits, all: seq<seq<FieldValue>>, n: nat, rows: seq<seq<FieldValue>>,
                    read: seq<Bytes>, size: nat, rowData: Bytes)
    requires Reading(lib, limits, all, n, rows, read, size)
    requires n < |all| && EncodeValues(lib, all[n]) == Some(rowData)
    requires RefusedAt(limits, Some(|rowData|), n, size).None?
    ensures Reading(lib, limits, all, n + 1, rows + [all[n]], read + [rowData], size + |rowData|)
  {
    RowsReadStep(lib, limits, all, n, read, rowData);
  }

  lemma AllRowsRead(lib: Library, limits: Limits, rows: seq<seq<FieldValue>>, read: seq<Bytes>)
    requires RowsRead(lib, limits, rows, |rows|, read)
    ensures Fits(lib, limits, rows) && read == EncodeRows(lib, rows)
  {
    assert read == EncodeRows(lib, rows);
  }

  /** Reading stopped at row k, for this reason and no earlier one. */
  ghost predicate StoppedAt(lib: Library, limits: Limits, rows: seq<seq<FieldValue>>, k: nat, read: seq<Bytes>,
                            err: Error) {
    && k < |rows|
    && RowsRead(lib, limits, rows, k, read)
    && RefusedAt(limits, RowSize(lib, rows[k]), k, SizeOf(read)) == Some(err)
  }

  /** The rows read, and the next, take no more bytes than all of them. */
  lemma RowsReadSize(lib: Library, limits: Limits, rows: seq<seq<FieldValue>>, k: nat, read: seq<Bytes>)
    requires Formattable(lib, rows) && RowsRead(lib, limits, rows, k, read) && k < |rows|
    ensures SizeOf(read) + |EncodeValues(lib, rows[k]).value| <= SizeOf(EncodeRows(lib, rows))
  {
    var all, next := EncodeRows(lib, rows), EncodeValues(lib, rows[k]).value;
    assert all[..k + 1] == read + [next];
    SizeOfSnoc(read, next);
    SizeOfPrefix(all, k + 1);
  }

  lemma StoppedRowsAreRefused(lib: Library, limits: Limits, rows: seq<seq<FieldValue>>, k: nat, read: seq<Bytes>,
                              err: Error)
    requires StoppedAt(lib, limits, rows, k, read, err)
    ensures !Fits(lib, limits, rows)
  {
    if Formattable(lib, rows) {
      assert RowSize(lib, rows[k]) == Some(|EncodeValues(lib, rows[k]).value|);
      RowsReadSize(lib, limits, rows, k, read);
    }
  }

  /** The row callback of executeBoundedSelect: the error to stop with, or the
      encoded row. */
  method AcceptRow(lib: Library, limits: Limits, rowCount: nat, resultBytes: nat, row: seq<FieldValue>)
    returns (refused: Option<Error>, rowData: Bytes)
    ensures refused == RefusedAt(limits, RowSize(lib, row), rowCount, resultBytes)
    ensures refused.None? ==> EncodeValues(lib, row) == Some(rowData) && RowSize(lib, row) == Some(|rowData|)
  {
    rowData := [];
    if limits.maxResultRows > 0 && rowCount >= limits.maxResultRows {
      return Some(RowLimitExceeded), [];
    }
    var encoded := RowDataFromValues(lib, row);
    if encoded.None? {
      return Some(BadRow), [];
    }
    if limits.maxResultBytes > 0 && resultBytes + |encoded.value| > limits.maxResultBytes {
      return Some(ByteLimitExceeded), [];
    }
    return None, encoded.value;
  }

  /** The rows the upstream delivers, up to the first that is refused. */
  method ReadRows(lib: Library, limits: Limits, all: seq<seq<FieldValue>>)
    returns (rows: seq<seq<FieldValue>>, rowDatas: seq<Bytes>, refused: Option<Error>, consumed: nat)
    ensures refused.Some? ==> consumed > 0 && StoppedAt(lib, limits, all, consumed - 1, rowDatas, refused.value)
    ensures consumed <= |all| && (limits.maxResultRows > 0 ==> consumed <= limits.maxResultRows + 1)
    ensures refused.None? ==> consumed == |all| && rows == all && RowsRead(lib, limits, all, consumed, rowDatas)
  {
    rows, rowDatas, refused, consumed := [], [], None, 0;
    var resultBytes: nat := 0;
    while consumed < |all|
      invariant refused == None && Reading(lib, limits, all, consumed, rows, rowDatas, resultBytes)
    {
      var rowData;
      refused, rowData := AcceptRow(lib, limits, |rows|, resultBytes, all[consumed]);
      consumed := consumed + 1;
      if refused.Some? {
        return;
      }
      ReadingStep(lib, limits, all, consumed - 1, rows, rowDatas, resultBytes, rowData);
      rows := rows + [all[consumed - 1]];
      rowDatas := rowDatas + [rowData];
      resultBytes := resultBytes + |rowData|;
    }
    assert all[..consumed] == all;
  }

  lemma {:induction false} StoppedFrom(limits: Limits, sizes: seq<Option<nat>>, k: nat, read: seq<Bytes>, i: nat)
    requires i <= k == |read| && k <= |sizes| && forall j :: 0 <= j < k ==> sizes[j] == Some(|read[j]|)
    requires limits.maxResultRows > 0 ==> k <= limits.maxResultRows
    requires limits.maxResultBytes > 0 ==> SizeOf(read) <= limits.maxResultBytes
    ensures RefusedFrom(limits, sizes, i, SizeOf(read[..i])) == RefusedFrom(limits, sizes, k, SizeOf(read))
    decreases k - i
  {
    if i == k {
      assert read[..i] == read;
    } else {
      StoppedFrom(limits, sizes, k, read, i + 1);
      assert read[..i + 1] == read[..i] + [read[i]];
      SizeOfSnoc(read[..i], read[i]);
      SizeOfPrefix(read, i + 1);
    }
  }

  /** What stops the reading, from where it was stopped or went through. */
  lemma RowsReadReason(lib: Library, limits: Limits, rows: seq<seq<FieldValue>>, n: nat, read: seq<Bytes>)
    requires RowsRead(lib, limits, rows, n, read)
    ensures RefusedFrom(limits, RowSizes(lib, rows), 0, 0)
            == RefusedFrom(limits, RowSizes(lib, rows), n, SizeOf(read))
  {
    StoppedFrom(limits, RowSizes(lib, rows), n, read, 0);
  }

  /** Reading goes on to a row that is refused, or to the end. */
  lemma {:induction false} ReadsUntil(lib: Library, limits: Limits, rows: seq<seq<FieldValue>>, i: nat,
                                      read: seq<Bytes>)
    returns (n: nat, done: seq<Bytes>)
    requires RowsRead(lib, limits, rows, i, read)
    ensures RowsRead(lib, limits, rows, n, done)
    ensures n == |rows| || RefusedAt(limits, RowSize(lib, rows[n]), n, SizeOf(done)).Some?
    decreases |rows| - i
  {
    n, done := i, read;
    if i < |rows| && RefusedAt(limits, RowSize(lib, rows[i]), i, SizeOf(read)).None? {
      var rowData := EncodeValues(lib, rows[i]).value;
      RowsReadStep(lib, limits, rows, i, read, rowData);
      n, done := ReadsUntil(lib, limits, rows, i + 1, read + [rowData]);
    }
  }

  /** Stopping at the first row over a limit fails exactly when checking the rows
      after reading all of them would. */
  lemma RefusedIffUnfit(lib: Library, limits: Limits, rows: seq<seq<FieldValue>>)
    ensures RefusedFrom(limits, RowSizes(lib, rows), 0, 0).Some? <==> !Fits(lib, limits, rows)
  {
    var n, read := ReadsUntil(lib, limits, rows, 0, []);
    RowsReadReason(lib, limits, rows, n, read);
    if n == |rows| {
      AllRowsRead(lib, limits, rows, read);
    } else {
      StoppedRowsAreRefused(lib, limits, rows, n, read,
                            RefusedAt(limits, RowSize(lib, rows[n]), n, SizeOf(read)).value);
    }
  }

  /** The error of a query, given what the upstream answered. */
  function Failure(lib: Library, limits: Limits, answer: Answer): Option<Error> {
    match answer
    case Whole(err, _) => err
    case Streamed(stream) =>
      var refused := RefusedFrom(limits, RowSizes(lib, stream.rows), 0, 0);
      if refused.Some? then refused else stream.end
  }

  /** The result of a query, before anything is checked but the reading of it. */
  ghost function Delivered(lib: Library, limits: Limits, answer: Answer): Option<View> {
    match answer
    case Whole(err, result) => if err.Some? then None else result
    case Streamed(stream) => ReadThenCheck(lib, limits, stream)
  }

  /** executeBoundedSelect: reading row by row and stopping at the first row
      over a limit gives what reading everything first would, and takes at most
      one row more than the row limit. */
  method ExecuteBoundedSelect(lib: Library, limits: Limits, stream: RowStream)
    returns (result: Result?, err: Option<Error>, consumed: nat)
    ensures err == Failure(lib, limits, Streamed(stream))
    ensures err.None? <==> ReadThenCheck(lib, limits, stream).Some?
    ensures err.None? ==>
              result != null && fresh(result) && Some(result.Contents()) == ReadThenCheck(lib, limits, stream)
    ensures err.None? ==> consumed == |stream.rows|
    ensures err.Some? ==> result == null
    ensures consumed <= |stream.rows| && (limits.maxResultRows > 0 ==> consumed <= limits.maxResultRows + 1)
  {
    RefusedIffUnfit(lib, limits, stream.rows);
    var rows, rowDatas;
    rows, rowDatas, err, consumed := ReadRows(lib, limits, stream.rows);
    RowsReadReason(lib, limits, stream.rows, |rowDatas|, rowDatas);
    if err.Some? {
      result := null;
      return;
    }
    AllRowsRead(lib, limits, stream.rows, rowDatas);
    if stream.end.Some? {
      result, err := null, stream.end;
      return;
    }
    result := new Result(stream.head);
    if result.hasSet && result.columns != [] {
      result.rowDatas := rowDatas;
      result.values := rows;
      result.streaming := false;
      result.streamingDone := false;
    }
  }

  // ----- the outside world

  function AfterExchange(t: seq<Event>, err: Option<Error>): seq<Event> {
    if err.Some? then t + [ClientLost] else t
  }

  /** The connections and the audit log of one client session. Its methods may
      answer anything the network or the disk may answer. */
  class World {
    ghost var trace: seq<Event>
    var nextUpstream: nat

    constructor ()
      ensures trace == [] && nextUpstream == 0
    {
      trace, nextUpstream := [], 0;
    }

    ghost predicate Valid()
      reads this
    {
      forall u :: u in Summarize(trace).known ==> u < nextUpstream
    }

    ghost method Note(e: Event)
      modifies this`trace
      ensures trace == old(trace) + [e]
    {
      trace := trace + [e];
    }

    method UseDB(upstream: nat, database: string) returns (err: Option<Error>)
      modifies this`trace
      ensures trace == old(trace) + [UsedDB(upstream, database, err)]
    {
      err := *;
      Note(UsedDB(upstream, database, err));
    }

    /** A buffered query. The result pointer may be nil. */
    method Execute(upstream: nat, query: string, ghost decision: Decision) returns (result: Result?, err: Option<Error>)
      modifies this`trace
      ensures trace == old(trace) + [Executed(upstream, query, decision, Whole(err, Given(result)))]
      ensures result != null ==> fresh(result)
      ensures err.Some? ==> err.value.UpstreamRefused? || err.value.Transport?
    {
      var code: nat := *;
      var answer: nat := *;
      err := if answer == 0 then Some(UpstreamRefused(code)) else if answer == 1 then Some(Transport(code)) else None;
      result := null;
      if answer > 2 {
        var v: View := *;
        result := new Result(v);
      }
      Note(Executed(upstream, query, decision, Whole(err, Given(result))));
    }

    method ExecuteSelectStreaming(upstream: nat, query: string, ghost decision: Decision) returns (stream: RowStream)
      modifies this`trace
      ensures trace == old(trace) + [Executed(upstream, query, decision, Streamed(stream))]
      ensures stream.end.Some? ==> stream.end.value.UpstreamRefused? || stream.end.value.Transport?
    {
      stream := *;
      if stream.end.Some? {
        var code: nat := *;
        var refused: bool := *;
        stream := stream.(end := Some(if refused then UpstreamRefused(code) else Transport(code)));
      }
      Note(Executed(upstream, query, decision, Streamed(stream)));
    }

    /** A new upstream connection, or None when connecting fails. */
    method Connect() returns (upstream: Option<nat>)
      requires Valid()
      modifies this
      ensures Valid()
      ensures upstream.None? ==> trace == old(trace) + [ConnectFailed]
      ensures upstream.Some? ==>
                trace == old(trace) + [Opened(upstream.value)] && upstream.value !in Summarize(old(trace)).known
    {
      var ok: bool := *;
      if !ok {
        Extend(NO_RULES, trace, ConnectFailed);
        Note(ConnectFailed);
        return None;
      }
      upstream := Some(nextUpstream);
      Extend(NO_RULES, trace, Opened(nextUpstream));
      Note(Opened(nextUpstream));
      nextUpstream := nextUpstream + 1;
    }

    method LogQuery(record: QueryRecord) returns (written: bool)
      modifies this`trace
      ensures trace == old(trace) + [QueryLogged(record, written)]
    {
      written := *;
      Note(QueryLogged(record, written));
    }

    method LogAuth(user: string, allowed: bool) returns (written: bool)
      modifies this`trace
      ensures trace == old(trace) + [AuthLogged(user, allowed, written)]
    {
      written := *;
      Note(AuthLogged(user, allowed, written));
    }

    /** Consuming a one-time credential: the user it was issued to, or None. */
    method Consume(username: string) returns (user: Option<string>)
      modifies this`trace
      ensures trace == old(trace) + [CredentialConsumed(username, user)]
    {
      user := *;
      Note(CredentialConsumed(username, user));
    }

    /** Dropping what the protocol library remembers of a login. */
    method InvalidateCache(username: string)
      modifies this`trace
      ensures trace == old(trace) + [CacheInvalidated(username)]
    {
      Note(CacheInvalidated(username));
    }

    /** Counting a failed authentication against a name and its source. */
    method RecordFailure(username: string)
      modifies this`trace
      ensures trace == old(trace) + [FailureRecorded(username)]
    {
      Note(FailureRecorded(username));
    }

    /** Reading from the client and writing to it; after a failure the connection
        is of no more use. */
    method Exchange() returns (err: Option<Error>)
      modifies this`trace
      ensures trace == AfterExchange(old(trace), err)
    {
      var ok: bool := *;
      err := if ok then None else Some(Transport(0));
      if err.Some? {
        Note(ClientLost);
      }
    }

    method CloseUpstream(upstream: nat)
      modifies this`trace
      ensures trace == old(trace) + [Closed(upstream)]
    {
      Note(Closed(upstream));
    }
  }

  ghost function Given(result: Result?): Option<View>
    reads result
  {
    if result == null then None else Some(result.Contents())
  }

  /** Why a result may not be released: a row that cannot be written or read
      again, or something the client may not have. */
  ghost function Refusal(lib: Library, masker: Option<Index>, limits: Limits, decision: Decision, v: View): Error
    requires Released(lib, masker, limits, decision, v).None?
  {
    var n := Normalized(v);
    var unwanted := n.moreResults || (decision.kind == AllowSetup && n.HasResultset());
    if !unwanted && !(limits.Set() && n.IsStreaming()) && Buffered(lib, n).None? then BadRow
    else
      match Admitted(lib, limits, decision, v)
      case None => Unsupported
      case Some(b) => if Masked(lib, masker, decision, b).None? then BadRow else Unsupported
  }

  /** What the client gets when the upstream answers so: the error of the query,
      where running into a limit is not told apart from any other refusal, or
      what may be released of the result. */
  ghost function Reply(lib: Library, masker: Option<Index>, limits: Limits, decision: Decision,
                       answer: Answer): (Option<Error>, Option<View>) {
    match Failure(lib, limits, answer)
    case Some(err) => (Some(if err.RowLimitExceeded? || err.ByteLimitExceeded? then Unsupported else err), None)
    case None =>
      match Delivered(lib, limits, answer)
      case None => (None, None)
      case Some(v) =>
        var released := Released(lib, masker, limits, decision, v);
        (if released.None? then Some(Unsupported) else None, released)
  }

  /** The error the session ends with, if it does: a failure that is not the
      upstream's own MySQL error, or the refusal of a result. */
  ghost function Ending(lib: Library, masker: Option<Index>, limits: Limits, decision: Decision,
                        answer: Answer): Option<Error> {
    match Failure(lib, limits, answer)
    case Some(err) => if err.IsMySQLError() then None else Some(err)
    case None =>
      match Delivered(lib, limits, answer)
      case None => None
      case Some(v) =>
        if Released(lib, masker, limits, decision, v).Some? then None
        else Some(Refusal(lib, masker, limits, decision, v))
  }

  /** A query fails exactly when reading first and checking then would give no
      result, or the upstream reports an error. */
  lemma NothingAfterFailure(lib: Library, limits: Limits, answer: Answer)
    ensures answer.Streamed? ==>
              (Failure(lib, limits, answer).None? <==> ReadThenCheck(lib, limits, answer.stream).Some?)
    ensures Failure(lib, limits, answer).Some? ==> Delivered(lib, limits, answer) == None
  {
    if answer.Streamed? {
      RefusedIffUnfit(lib, limits, answer.stream.rows);
    }
  }

  /** The session goes on exactly when the client got no error or the upstream's
      own MySQL error; with an error the client gets no result and no masked
      cell is counted. */
  lemma EndingIff(lib: Library, masker: Option<Index>, limits: Limits, decision: Decision, answer: Answer)
    ensures var (err, given) := Reply(lib, masker, limits, decision, answer);
            && (Ending(lib, masker, limits, decision, answer).None? <==>
                  err.None? || (err == Failure(lib, limits, answer) && err.value.IsMySQLError()))
            && (err.Some? ==>
                  given == None && LoggedCount(lib, masker, limits, decision, Delivered(lib, limits, answer)) == 0)
            && (err.None? ==>
                  var delivered := Delivered(lib, limits, answer);
                  given == if delivered.None? then None
                           else Released(lib, masker, limits, decision, delivered.value))
  {
    NothingAfterFailure(lib, limits, answer);
    var failure, delivered := Failure(lib, limits, answer), Delivered(lib, limits, answer);
    if failure.None? && delivered.Some? {
      assert Reply(lib, masker, limits, decision, answer).1 == Released(lib, masker, limits, decision, delivered.value);
    }
  }

  // ----- the handler

  class ForwardingHandler {
    const world: World
    const upstream: nat
    const streams: bool
    const lib: Library
    /** The contents of the masking policy, which never change once it is built. */
    const masker: Option<Index>
    const limits: Limits
    var decision: Decision
    var closed: bool
    var terminal: Option<Error>
    var maskedFields: nat

    constructor (world: World, upstream: nat, streams: bool, lib: Library, masker: Option<Index>, limits: Limits,
                 decision: Decision)
      ensures this.world == world && this.upstream == upstream && this.streams == streams && this.lib == lib
      ensures this.masker == masker && this.limits == limits && this.decision == decision
      ensures !closed && terminal == None && maskedFields == 0
    {
      this.world, this.upstream, this.streams, this.lib := world, upstream, streams, lib;
      this.masker, this.limits, this.decision := masker, limits, decision;
      closed, terminal, maskedFields := false, None, 0;
    }

    method Close()
      modifies this`closed, world`trace
      ensures closed
      ensures world.trace == if old(closed) then old(world.trace) else old(world.trace) + [Closed(upstream)]
    {
      if closed {
        return;
      }
      closed := true;
      world.CloseUpstream(upstream);
    }

    method CloseTerminal(err: Error)
      modifies this`closed, this`terminal, world`trace
      ensures closed
      ensures terminal == if old(terminal).None? then Some(err) else old(terminal)
      ensures world.trace == if old(closed) then old(world.trace) else old(world.trace) + [Closed(upstream)]
    {
      if terminal.None? {
        terminal := Some(err);
      }
      Close();
    }

    /** A MySQL error leaves the upstream open; any other error closes it. */
    method UseDB(database: string) returns (err: Option<Error>)
      modifies this`closed, this`terminal, world`trace
      ensures old(closed) ==>
                err == Some(Unsupported) && closed && terminal == old(terminal) && world.trace == old(world.trace)
      ensures !old(closed) ==>
                && (closed <==> err.Some? && !err.value.IsMySQLError())
                && terminal == (if closed && old(terminal).None? then err else old(terminal))
                && world.trace == old(world.trace) + ThenClosed(UsedDB(upstream, database, err), closed, upstream)
    {
      if closed {
        return Some(Unsupported);
      }
      err := world.UseDB(upstream, database);
      if err.Some? && !err.value.IsMySQLError() {
        CloseTerminal(err.value);
      }
    }

    /** execute: reading row by row when a limit is set and the upstream can
        stream, and then no more than one row beyond the limit. */
    method Execute(query: string) returns (result: Result?, err: Option<Error>, consumed: nat, ghost answer: Answer)
      modifies world`trace
      ensures world.trace == old(world.trace) + [Executed(upstream, query, decision, answer)]
      ensures answer.Streamed? <==> limits.Set() && streams
      ensures answer.Streamed? && limits.maxResultRows > 0 ==> consumed <= limits.maxResultRows + 1
      ensures err == Failure(lib, limits, answer)
      ensures err.None? ==> Given(result) == Delivered(lib, limits, answer)
      ensures err.Some? ==> Delivered(lib, limits, answer) == None
      ensures result != null ==> fresh(result)
    {
      consumed := 0;
      if limits.maxResultRows > 0 || limits.maxResultBytes > 0 {
        if streams {
          var stream := world.ExecuteSelectStreaming(upstream, query, decision);
          result, err, consumed := ExecuteBoundedSelect(lib, limits, stream);
          answer := Streamed(stream);
          return;
        }
      }
      result, err := world.Execute(upstream, query, decision);
      answer := Whole(err, Given(result));
    }

    /** HandleQuery: one execution, and from what the upstream answered follow
        the error and the result the client gets, whether the upstream is closed
        and why, and the number of masked cells. */
    method HandleQuery(query: string) returns (result: Result?, err: Option<Error>, ghost answer: Answer)
      modifies this`closed, this`terminal, this`maskedFields, world`trace
      ensures result != null ==> fresh(result)
      ensures old(closed) ==>
                && result == null && err == Some(Unsupported)
                && closed && terminal == old(terminal) && maskedFields == old(maskedFields)
                && world.trace == old(world.trace)
      ensures !old(closed) ==>
                && world.trace
                   == old(world.trace) + ThenClosed(Executed(upstream, query, decision, answer), closed, upstream)
                && (answer.Streamed? <==> limits.Set() && streams)
                && (err, Given(result)) == Reply(lib, masker, limits, decision, answer)
                && (closed <==> Ending(lib, masker, limits, decision, answer).Some?)
                && terminal == (if closed && old(terminal).None? then Ending(lib, masker, limits, decision, answer)
                                else old(terminal))
                && (!closed ==>
                      maskedFields == LoggedCount(lib, masker, limits, decision, Delivered(lib, limits, answer)))
    {
      if closed {
        result, err, answer := null, Some(Unsupported), Whole(None, None);
        return;
      }
      maskedFields := 0;
      var consumed;
      result, err, consumed, answer := Execute(query);
      if err.Some? {
        result := null;
        if err == Some(RowLimitExceeded) || err == Some(ByteLimitExceeded) {
          CloseTerminal(err.value);
          err := Some(Unsupported);
          return;
        }
        if !err.value.IsMySQLError() {
          CloseTerminal(err.value);
        }
        return;
      }
      if result == null {
        return;
      }
      var refused := Release(result);
      if refused.Some? {
        CloseTerminal(refused.value);
        result, err := null, Some(Unsupported);
      }
    }

    /** The checks between a delivered result and the client: the error to close
        with, or None when the result, now masked, may be returned. */
    method Release(result: Result) returns (refused: Option<Error>)
      modifies result, this`maskedFields
      ensures refused
              == (if Released(lib, masker, limits, decision, old(result.Contents())).Some? then None
                  else Some(Refusal(lib, masker, limits, decision, old(result.Contents()))))
      ensures refused.None? ==>
                && Some(result.Contents()) == Released(lib, masker, limits, decision, old(result.Contents()))
                && maskedFields == old(maskedFields) +
                     MaskedCount(lib, masker, decision, Admitted(lib, limits, decision, old(result.Contents())).value)
    {
      result.Normalize();
      if result.moreResults {
        return Some(Unsupported);
      }
      if decision.kind == AllowSetup && result.Contents().HasResultset() {
        return Some(Unsupported);
      }
      if limits.maxResultRows > 0 && result.Contents().IsStreaming() {
        return Some(Unsupported);
      }
      if limits.maxResultBytes > 0 && result.Contents().IsStreaming() {
        return Some(Unsupported);
      }
      var ok := result.EnsureBuffered(lib);
      if !ok {
        return Some(BadRow);
      }
      if RowsOver(limits, result.Contents()) || BytesOver(limits, result.Contents()) {
        return Some(Unsupported);
      }
      ok := MaskResult(result);
      if !ok {
        return Some(BadRow);
      }
      if BytesOver(limits, result.Contents()) {
        return Some(Unsupported);
      }
      return None;
    }

    /** maskResult: every row is parsed, masked and written again. */
    method MaskResult(result: Result) returns (ok: bool)
      modifies result, this`maskedFields
      ensures ok <==> Masked(lib, masker, decision, old(result.Contents())).Some?
      ensures ok ==> Some(result.Contents()) == Masked(lib, masker, decision, old(result.Contents()))
      ensures ok ==> maskedFields == old(maskedFields) + MaskedCount(lib, masker, decision, old(result.Contents()))
    {
      if masker.None? {
        return true;
      }
      if result.Contents().IsStreaming() {
        return false;
      }
      if !result.hasSet || result.columns == [] {
        return true;
      }
      var rowDatas := result.rowDatas;
      if rowDatas == [] && result.values != [] {
        var encoded := RowDatasFromValues(lib, result.values);
        if encoded.None? {
          return false;
        }
        rowDatas := encoded.value;
      }
      assert Buffered(lib, result.Contents()).value.rowDatas == rowDatas;
      var maskedRows, values;
      ok, maskedRows, values := MaskAllRows(masker.value, result.columns, rowDatas);
      if ok {
        result.rowDatas := maskedRows;
        result.values := values;
      }
    }

    /** The loop of maskResult. */
    method MaskAllRows(index: Index, columns: seq<Option<Column>>, rowDatas: seq<Bytes>)
      returns (ok: bool, maskedRows: seq<Bytes>, values: seq<seq<FieldValue>>)
      modifies this`maskedFields
      ensures ok <==> Maskable(lib, index, decision, columns, rowDatas)
      ensures ok ==>
                var rows := MaskRows(lib, index, decision, columns, rowDatas);
                && maskedRows == RowBytes(rows)
                && values == RowValues(rows)
                && maskedFields == old(maskedFields) + ChangedCells(rows)
    {
      maskedRows, values := [], [];
      ghost var rows: seq<MaskedRow> := [];
      var i := 0;
      while i < |rowDatas|
        invariant 0 <= i <= |rowDatas| && RowsMasked(lib, index, decision, columns, rowDatas, i, rows)
        invariant maskedRows == RowBytes(rows) && values == RowValues(rows)
        invariant maskedFields == old(maskedFields) + ChangedCells(rows)
      {
        var rowValues := ParseRow(lib, columns, rowDatas[i]);
        if rowValues.None? {
          assert MaskRow(lib, index, decision, columns, rowDatas[i]).None?;
          return false, [], [];
        }
        var row := MaskOneRow(index, columns, rowValues.value);
        if row.None? {
          assert MaskRow(lib, index, decision, columns, rowDatas[i]).None?;
          return false, [], [];
        }
        ghost var next := MaskValues(lib, index, decision, columns, rowValues.value).value;
        RowsMaskedStep(lib, index, decision, columns, rowDatas, i, rows, next);
        RowsSnoc(rows, next);
        rows := rows + [next];
        maskedRows := maskedRows + [row.value.0];
        values := values + [row.value.1];
        i := i + 1;
      }
      RowsMaskedAll(lib, index, decision, columns, rowDatas, rows);
      ok := true;
    }

    /** maskRow. */
    method MaskOneRow(index: Index, columns: seq<Option<Column>>, values: seq<FieldValue>)
      returns (row: Option<(Bytes, seq<FieldValue>)>)
      requires |values| == |columns|
      modifies this`maskedFields
      ensures row.Some? <==> MaskValues(lib, index, decision, columns, values).Some?
      ensures row.Some? ==>
                var masked := MaskValues(lib, index, decision, columns, values).value;
                && row.value == (masked.rowData, masked.values)
                && maskedFields == old(maskedFields) + masked.changed
    {
      var rowData: Bytes := [];
      ghost var cells: seq<Value>, done: seq<Value> := [], [];
      var i := 0;
      while i < |values|
        invariant 0 <= i <= |values| && CellsMasked(lib, index, decision, columns, values, i, cells, done)
        invariant rowData == EncodeRow(done)
        invariant maskedFields == old(maskedFields) + Changed(cells, done)
      {
        var raw := CellBytes(lib, values[i]);
        if raw.None? {
          return None;
        }
        var masked := raw.value;
        if !Passthrough(decision, i, columns[i], |columns|) {
          masked := index.Mask(MaskingField(columns[i]), raw.value);
          if masked != raw.value {
            maskedFields := maskedFields + 1;
          }
        }
        CellsMaskedStep(lib, index, decision, columns, values, i, cells, done, raw.value);
        EncodeRowSnoc(done, masked);
        ChangedSnoc(cells, done, raw.value, masked);
        rowData := rowData + EncodeCell(masked);
        cells, done := cells + [raw.value], done + [masked];
        i := i + 1;
      }
      CellsMaskedAll(lib, index, decision, columns, values, cells, done);
      var maskedValues := ParseRow(lib, columns, rowData);
      if maskedValues.None? {
        return None;
      }
      return Some((rowData, maskedValues.value));
    }
  }
}
