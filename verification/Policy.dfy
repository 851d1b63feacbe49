/**
 The policy handler: it sizes, classifies and audits every query, and lets a
 query or a database name through only when it may go upstream.
 */
module Policy {
  import opened Common
  import opened TextRow
  import opened Decisions
  import opened Masking
  import opened Resultset
  import opened Trace
  import opened Forwarding
  import opened Deferred
  import Normalize

  // ----- the answer to SELECT @@max_allowed_packet

  function Decimal(n: nat): Bytes {
    if n < 10 then [(48 + n) as byte] else Decimal(n / 10) + [(48 + n % 10) as byte]
  }

  function MaxAllowedPacketView(lib: Library, limit: nat): View {
    var columns := [Some(Column("", "", "", LongLong, false))];
    var rowData := EncodeRow([Some(Decimal(limit))]);
    var values := match ParseRow(lib, columns, rowData) case Some(v) => [v] case None => [];
    View(false, false, true, columns, [rowData], values, false, false)
  }

  /** The number that decimal digits write. */
  function DecimalValue(digits: Bytes): int {
    if digits == [] then 0 else 10 * DecimalValue(digits[..|digits| - 1]) + digits[|digits| - 1] as int - 48
  }

  /** The digits write the number, without a zero in front. */
  lemma {:induction false} DecimalRoundTrip(n: nat)
    ensures DecimalValue(Decimal(n)) == n
    ensures forall i :: 0 <= i < |Decimal(n)| ==> 48 <= Decimal(n)[i] <= 57
    ensures 0 < |Decimal(n)| && (n > 0 ==> |Decimal(n)| <= n && Decimal(n)[0] != 48)
  {
    if n < 10 {
      assert Decimal(n)[..0] == [];
    } else {
      DecimalRoundTrip(n / 10);
      assert Decimal(n)[..|Decimal(n)| - 1] == Decimal(n / 10);
    }
  }

  /** The answer is one row with one cell, and that cell is the limit. */
  lemma SynthesizedCell(lib: Library, limit: nat)
    requires 0 < limit <= MAX_LENGTH
    ensures var v := MaxAllowedPacketView(lib, limit);
            && v.hasSet && !v.IsStreaming() && !v.moreResults && |v.columns| == |v.rowDatas| == 1
            && DecodeRow(v.rowDatas[0], 1).Some?
            && var cells := DecodeRow(v.rowDatas[0], 1).value;
               |cells| == 1 && cells[0].Some? && DecimalValue(cells[0].value) == limit
    ensures var v := MaxAllowedPacketView(lib, limit);
            v.values == match ParseRow(lib, v.columns, v.rowDatas[0]) case Some(row) => [row] case None => []
  {
    DecimalRoundTrip(limit);
    RowRoundTrip([Some(Decimal(limit))], []);
    var rowData := EncodeRow([Some(Decimal(limit))]);
    assert rowData + [] == rowData;
  }

  predicate ShouldSynthesize(limits: Limits, d: Decision) {
    && limits.maxQueryBytes > 0
    && d.kind == AllowOperationalRead
    && |d.contexts| == 1
    && d.contexts[0].functionName == "@@max_allowed_packet"
  }

  function QueryErrorClass(err: Option<Error>): ErrorClass {
    match err
    case None => NoErrorClass
    case Some(e) => if e.IsMySQLError() then MySQLErrorClass else ProxyErrorClass
  }

  /** An upstream fails with a MySQL error of its own or by falling silent. */
  predicate FromUpstream(answer: Answer) {
    var err := if answer.Whole? then answer.err else answer.stream.end;
    err.Some? ==> err.value.UpstreamRefused? || err.value.Transport?
  }

  /** The class that a query run upstream is logged with: none when it succeeded,
      the proxy's when the upstream fell silent or sent a row that cannot be
      written while it was read, and MySQL's for the upstream's own errors and for
      everything that is refused. */
  lemma ReplyClass(lib: Library, masker: Option<Index>, limits: Limits, decision: Decision, answer: Answer)
    requires FromUpstream(answer)
    ensures var (err, given) := Reply(lib, masker, limits, decision, answer);
            var failure, errorClass := Failure(lib, limits, answer), QueryErrorClass(err);
            && (errorClass == NoErrorClass <==> err.None?)
            && (errorClass == ProxyErrorClass <==> failure.Some? && (failure.value.Transport? || failure.value.BadRow?))
            && (errorClass == MySQLErrorClass <==>
                  || (failure.Some? && (failure.value.UpstreamRefused? || failure.value.RowLimitExceeded?
                                        || failure.value.ByteLimitExceeded?))
                  || err == Some(Unsupported))
  {
    if answer.Streamed? {
      RefusalKinds(limits, RowSizes(lib, answer.stream.rows), 0, 0);
    }
  }

  lemma {:induction false} RefusalKinds(limits: Limits, sizes: seq<Option<nat>>, i: nat, total: nat)
    requires i <= |sizes|
    ensures var refused := RefusedFrom(limits, sizes, i, total);
            refused.Some? ==>
              refused.value.RowLimitExceeded? || refused.value.BadRow? || refused.value.ByteLimitExceeded?
    decreases |sizes| - i
  {
    if i < |sizes| && RefusedAt(limits, sizes[i], i, total).None? {
      RefusalKinds(limits, sizes, i + 1, total + sizes[i].value);
    }
  }

  // ----- one audit attempt

  /** The only query record written between the histories t and u is the event
      at `at`, and after it there are only closings. */
  ghost predicate OneAttempt(t: seq<Event>, u: seq<Event>, at: nat, record: QueryRecord, written: bool) {
    && t <= u
    && |t| <= at < |u|
    && u[at] == QueryLogged(record, written)
    && (forall i :: |t| <= i < at ==> u[i].Executed? || u[i].Closed? || u[i].BecameTerminal?)
    && (forall i :: at < i < |u| ==> u[i].Closed? || u[i].BecameTerminal?)
    && (written ==> |u| == at + 1)
  }

  ghost predicate Executes(t: seq<Event>, u: seq<Event>) {
    exists i :: |t| <= i < |u| && u[i].Executed?
  }

  /** The query is the first thing to happen after t, and no other follows. */
  ghost predicate ExecutesOnce(t: seq<Event>, u: seq<Event>, e: Event) {
    |t| < |u| && u[|t|] == e && e.Executed? && forall i :: |t| < i < |u| ==> !u[i].Executed?
  }

  /** The history u continues t by work on an upstream only. */
  ghost predicate WorkOnly(t: seq<Event>, u: seq<Event>) {
    t <= u && forall i :: |t| <= i < |u| ==> u[i].Executed? || u[i].Closed? || u[i].BecameTerminal?
  }

  lemma WorkThenAttempt(t: seq<Event>, u: seq<Event>, w: seq<Event>, at: nat, record: QueryRecord, written: bool)
    requires WorkOnly(t, u) && OneAttempt(u, w, at, record, written) && at == |u|
    ensures OneAttempt(t, w, at, record, written)
    ensures Executes(t, w) ==> Executes(t, u)
    ensures |t| < |u| && ExecutesOnce(t, u, u[|t|]) ==> ExecutesOnce(t, w, u[|t|])
  {
    if Executes(t, w) {
      var i :| |t| <= i < |w| && w[i].Executed?;
      assert w[i] == u[i];
    }
  }

  lemma JustAttempt(t: seq<Event>, record: QueryRecord, written: bool)
    ensures OneAttempt(t, t + [QueryLogged(record, written)], |t|, record, written)
  {
  }

  /** After a failed attempt the session ends, and its upstream, if any, is closed. */
  lemma AttemptThenEnd(t: seq<Event>, record: QueryRecord, cause: Error, active: Option<nat>)
    ensures var u := t + [QueryLogged(record, false)];
            && OneAttempt(t, u + [BecameTerminal(cause)], |t|, record, false)
            && (active.Some? ==>
                  OneAttempt(t, u + ThenClosed(BecameTerminal(cause), true, active.value), |t|, record, false))
  {
  }

  lemma QueryIsWork(t: seq<Event>, e: Event, ending: Option<Error>)
    requires e.Executed?
    ensures var w := AfterWork(t, e, ending); WorkOnly(t, w) && ExecutesOnce(t, w, e)
  {
    var w := AfterWork(t, e, ending);
    assert w[|t|] == e;
  }

  /** A single attempt leaves a single mark, the statement it was for. */
  lemma AttemptMarks(t: seq<Event>, u: seq<Event>, at: nat, record: QueryRecord, written: bool)
    requires OneAttempt(t, u, at, record, written)
    ensures Marks(u) == Marks(t) + [Statement(record.statement)]
  {
    MarksThrough(t, u, at);
  }

  /** What follows a request for a database, answered with this error: nothing
      when the name is not allowed, and its selection when an upstream is active. */
  function AfterName(t: seq<Event>, allowed: set<string>, name: string, active: Option<nat>,
                     err: Option<Error>): seq<Event> {
    if name !in allowed then t
    else if active.None? then t + [NameAccepted(name)]
    else
      AfterWork(t + [NameAccepted(name)], UsedDB(active.value, name, err),
                if err.Some? && !err.value.IsMySQLError() then err else None)
  }

  function NameMarks(allowed: set<string>, name: string): seq<Mark> {
    if name in allowed then [Name(name)] else []
  }

  lemma MarksAfterWork(t: seq<Event>, e: Event, ending: Option<Error>)
    requires e.UsedDB? || e.Executed?
    ensures Marks(AfterWork(t, e, ending)) == Marks(t)
  {
    MarksKept(t, AfterWork(t, e, ending));
  }

  lemma MarksAfterName(t: seq<Event>, allowed: set<string>, name: string, active: Option<nat>, err: Option<Error>)
    ensures Marks(AfterName(t, allowed, name, active, err)) == Marks(t) + NameMarks(allowed, name)
  {
    MarksExtend(t, NameAccepted(name));
    if name in allowed && active.Some? {
      var ending := if err.Some? && !err.value.IsMySQLError() then err else None;
      MarksAfterWork(t + [NameAccepted(name)], UsedDB(active.value, name, err), ending);
    }
  }

  class PolicyHandler {
    const world: World
    const classify: string -> Decision
    const allowedSchemas: set<string>
    const limits: Limits
    const hasAuditor: bool
    const next: DeferredForwardingHandler
    var identity: string

    constructor (world: World, classify: string -> Decision, allowedSchemas: set<string>, limits: Limits,
                 hasAuditor: bool,
                 next: DeferredForwardingHandler)
      requires next.Valid() && next.world == world && next.limits == limits && world.trace == []
      requires next.rules == Rules(classify, allowedSchemas, limits.maxQueryBytes)
      ensures this.world == world && this.next == next && this.hasAuditor == hasAuditor
      ensures this.classify == classify && this.allowedSchemas == allowedSchemas && this.limits == limits
      ensures Valid()
    {
      this.world, this.classify, this.allowedSchemas := world, classify, allowedSchemas;
      this.limits, this.hasAuditor, this.next, identity := limits, hasAuditor, next, "";
    }

    /** Query records carry the user whose authentication was logged last. */
    ghost predicate Identified()
      reads this, next, world
    {
      && next.world == world && next.limits == limits
      && next.rules == Rules(classify, allowedSchemas, limits.maxQueryBytes)
      && (hasAuditor ==> identity == next.History().user)
    }

    ghost predicate Valid()
      reads this, next, world, next.forwarding
    {
      Identified() && next.world == world && next.Valid()
    }

    /** Only a name on the allow list goes any further: to the active upstream, or
        to where it is kept for one. */
    method UseDB(database: string) returns (err: Option<Error>)
      requires Valid()
      modifies next`pendingDatabase, next`forwarding, next`closed, next`terminal, world`trace, next.ActiveHandler()
      ensures Valid()
      ensures world.trace == AfterName(old(world.trace), allowedSchemas, database, old(Active()), err)
      ensures database !in allowedSchemas ==>
                && err == Some(PolicyDenied)
                && next.forwarding == old(next.forwarding) && next.terminal == old(next.terminal)
                && next.closed == old(next.closed)
      ensures database in allowedSchemas && old(next.forwarding) == null ==>
                && next.forwarding == null && next.closed == old(next.closed) && next.terminal == old(next.terminal)
                && err == (if next.closed then Some(Unsupported) else None)
                && (!next.closed ==> next.pendingDatabase == database)
      ensures database in allowedSchemas && old(next.forwarding) != null ==>
                var ends := err.Some? && !err.value.IsMySQLError();
                && next.forwarding == (if ends then null else old(next.forwarding))
                && next.terminal == (if ends then err else old(next.terminal))
      ensures next.forwarding != null ==> next.MaskedFieldCount() == old(next.MaskedFieldCount())
      ensures SameUpstreams(old(next.History()), next.History())
    {
      hide Safe, Summarize;
      if database !in allowedSchemas {
        return Some(PolicyDenied);
      }
      Extend(next.rules, world.trace, NameAccepted(database));
      world.Note(NameAccepted(database));
      err := next.UseDB(database);
    }

    /** auditQuery: the attempt to write the query's record. */
    method AuditQuery(query: string, kind: DecisionKind, errorClass: ErrorClass) returns (written: bool)
      requires Valid()
      modifies world`trace
      ensures !hasAuditor ==> written && world.trace == old(world.trace)
      ensures hasAuditor ==>
                var record := QueryRecord(identity, Normalize.Logged(query), kind, next.MaskedFieldCount(),
                                          errorClass);
                world.trace == old(world.trace) + [QueryLogged(record, written)]
      ensures next.Linked() && next.Parked() && next.OpenOnly({}) && (written ==> next.FailsClosed()) && Identified()
      ensures SameUpstreams(old(next.History()), next.History())
    {
      hide Safe, Summarize;
      if !hasAuditor {
        return true;
      }
      var normalized := Normalize.NormalizeStatement(query);
      var record := QueryRecord(identity, normalized, kind, next.MaskedFieldCount(), errorClass);
      ghost var t := world.trace;
      written := world.LogQuery(record);
      Extend(next.rules, t, QueryLogged(record, written));
    }

    /** auditQuery followed, when the record cannot be written, by
        closeAfterAuditFailure. */
    method AuditOrClose(query: string, kind: DecisionKind, errorClass: ErrorClass)
      returns (written: bool, ghost at: nat)
      requires Valid()
      modifies next`forwarding, next`closed, next`terminal, world`trace, next.ActiveHandler()
      ensures Valid()
      ensures at == |old(world.trace)|
      ensures !hasAuditor ==> written && world.trace == old(world.trace)
      ensures hasAuditor ==> OneAttempt(old(world.trace), world.trace, at,
                QueryRecord(identity, Normalize.Logged(query), kind, old(next.MaskedFieldCount()),
                            errorClass), written)
      ensures written ==>
                && next.forwarding == old(next.forwarding)
                && next.closed == old(next.closed) && next.terminal == old(next.terminal)
      ensures written ==> next.MaskedFieldCount() == old(next.MaskedFieldCount())
      ensures !written ==> next.forwarding == null && next.closed && next.terminal.Some?
      ensures old(next.terminal).Some? ==> next.terminal == old(next.terminal)
      ensures SameUpstreams(old(next.History()), next.History())
    {
      hide Safe, Summarize;
      ghost var t := world.trace;
      ghost var count := next.MaskedFieldCount();
      at := |t|;
      written := AuditQuery(query, kind, errorClass);
      ghost var record := QueryRecord(identity, Normalize.Logged(query), kind, count, errorClass);
      JustAttempt(t, record, written);
      if !written {
        ghost var active := next.forwarding;
        next.CloseTerminal(AuditFailure);
        AttemptThenEnd(t, record, AuditFailure, if active == null then None else Some(active.upstream));
      }
    }

    predicate TooLarge(query: string) {
      limits.maxQueryBytes > 0 && |query| > limits.maxQueryBytes
    }

    /** The query is answered without the upstream. */
    predicate Local(query: string) {
      TooLarge(query) || !IsAllowedDecision(classify(query)) || ShouldSynthesize(limits, classify(query))
    }

    /** A query goes upstream exactly when it may and is not the one question that
        is answered from the proxy's own limit. */
    lemma LocalIff(query: string)
      ensures var d := classify(query);
              var asksForLimit := limits.maxQueryBytes > 0 && d.kind == AllowOperationalRead
                                  && exists c :: d.contexts == [c] && c.functionName == "@@max_allowed_packet";
              Local(query) <==>
                !Rules(classify, allowedSchemas, limits.maxQueryBytes).Sendable(query, d) || asksForLimit
    {
      var d := classify(query);
      if |d.contexts| == 1 {
        assert d.contexts == [d.contexts[0]];
      }
    }

    /** What a client gets for a local query whose record is written. */
    function LocalError(query: string): Option<Error>
      requires Local(query)
    {
      if TooLarge(query) then Some(QueryTooLarge)
      else if !IsAllowedDecision(classify(query)) then Some(PolicyDenied)
      else None
    }

    function LocalRecord(query: string, maskedFields: nat): QueryRecord
      requires Local(query)
      reads this`identity
    {
      var statement := Normalize.Logged(query);
      if TooLarge(query) then QueryRecord(identity, statement, Reject, maskedFields, QueryTooLargeClass)
      else if !IsAllowedDecision(classify(query)) then
        QueryRecord(identity, statement, classify(query).kind, maskedFields, PolicyRejectClass)
      else QueryRecord(identity, statement, classify(query).kind, maskedFields, NoErrorClass)
    }

    function ForwardedRecord(query: string, maskedFields: nat, errorClass: ErrorClass): QueryRecord
      reads this`identity
    {
      QueryRecord(identity, Normalize.Logged(query), classify(query).kind, maskedFields, errorClass)
    }

    /** What a client gets for a query whose record is written, when the query was
        not run or the upstream answered so. */
    ghost function ReplyTo(query: string, answer: Option<Answer>): (Option<Error>, Option<View>) {
      if Local(query) then
        (LocalError(query),
         if LocalError(query).Some? then None else Some(MaxAllowedPacketView(next.lib, limits.maxQueryBytes)))
      else if answer.None? then (Some(Unsupported), None)
      else Reply(next.lib, next.masker, limits, classify(query), answer.value)
    }

    /** The number of masked cells in what the query released. */
    ghost function CountOf(query: string, answer: Option<Answer>): nat {
      if answer.None? then 0
      else
        LoggedCount(next.lib, next.masker, limits, classify(query), Delivered(next.lib, limits, answer.value))
    }

    /** What is logged of a query; a query answered here is logged with the masked
        field count of the query forwarded last. */
    ghost function RecordOf(query: string, before: nat, answer: Option<Answer>): QueryRecord
      reads this`identity
    {
      if Local(query) then LocalRecord(query, before)
      else ForwardedRecord(query, CountOf(query, answer), QueryErrorClass(ReplyTo(query, answer).0))
    }

    /** What can be read off a record: who asked, the normal form of what, how it
        was classified, and what the client was told. */
    lemma RecordTells(query: string, before: nat, answer: Option<Answer>)
      requires answer.Some? ==> FromUpstream(answer.value)
      ensures var r, told := RecordOf(query, before, answer), ReplyTo(query, answer).0;
              && r.user == identity && r.statement == Normalize.Logged(query)
              && r.decision == (if told == Some(QueryTooLarge) then Reject else classify(query).kind)
              && r.errorClass == match told
                                 case None => NoErrorClass
                                 case Some(QueryTooLarge) => QueryTooLargeClass
                                 case Some(PolicyDenied) => PolicyRejectClass
                                 case Some(Transport(_)) => ProxyErrorClass
                                 case Some(BadRow) => ProxyErrorClass
                                 case Some(_) => MySQLErrorClass
    {
      if !Local(query) && answer.Some? {
        var a := answer.value;
        if a.Streamed? {
          RefusalKinds(limits, RowSizes(next.lib, a.stream.rows), 0, 0);
        }
        NothingAfterFailure(next.lib, limits, a);
      }
    }

    /** One query, from history t to u: it runs, on the active upstream, exactly
        when it is not answered here, it is logged in one attempt, and the client
        gets its reply exactly when that attempt succeeds. */
    ghost predicate Handled(query: string, before: nat, active: Option<nat>, t: seq<Event>, u: seq<Event>, at: nat,
                            written: bool, answer: Option<Answer>, err: Option<Error>, given: Option<View>)
      reads this`identity
    {
      && t <= u
      && (answer.Some? <==> !Local(query) && active.Some?)
      && (answer.Some? ==> ExecutesOnce(t, u, Executed(active.value, query, classify(query), answer.value)))
      && (answer.None? ==> !Executes(t, u))
      && (hasAuditor ==> OneAttempt(t, u, at, RecordOf(query, before, answer), written))
      && (!hasAuditor ==> written && WorkOnly(t, u))
      && (err, given) == (if written then ReplyTo(query, answer) else (Some(Unsupported), None))
    }

    /** The attempt to log a query that is answered here. */
    lemma LocalIsHandled(query: string, before: nat, active: Option<nat>, t: seq<Event>, u: seq<Event>, at: nat,
                         written: bool, err: Option<Error>, given: Option<View>)
      requires Local(query)
      requires hasAuditor ==> OneAttempt(t, u, at, LocalRecord(query, before), written) && at == |t|
      requires !hasAuditor ==> written && u == t
      requires (err, given) == (if written then ReplyTo(query, None) else (Some(Unsupported), None))
      ensures Handled(query, before, active, t, u, at, written, None, err, given)
    {
    }

    /** Work upstream, the history t to u, and then the attempt to log it. */
    lemma WorkIsHandled(query: string, before: nat, active: Option<nat>, t: seq<Event>, u: seq<Event>, w: seq<Event>,
                        at: nat, written: bool, answer: Option<Answer>, err: Option<Error>, given: Option<View>)
      requires !Local(query) && WorkOnly(t, u) && (answer.Some? <==> active.Some?)
      requires answer.Some? ==> ExecutesOnce(t, u, Executed(active.value, query, classify(query), answer.value))
      requires answer.None? ==> !Executes(t, u)
      requires hasAuditor ==> at == |u| && OneAttempt(u, w, at, RecordOf(query, before, answer), written)
      requires !hasAuditor ==> written && w == u
      requires (err, given) == (if written then ReplyTo(query, answer) else (Some(Unsupported), None))
      ensures Handled(query, before, active, t, w, at, written, answer, err, given)
    {
      if hasAuditor {
        WorkThenAttempt(t, u, w, at, RecordOf(query, before, answer), written);
      }
    }

    /** A handled query leaves one mark, its normal form, when queries are logged. */
    lemma HandledMarks(query: string, before: nat, active: Option<nat>, t: seq<Event>, u: seq<Event>, at: nat,
                       written: bool, answer: Option<Answer>, err: Option<Error>, given: Option<View>)
      requires Handled(query, before, active, t, u, at, written, answer, err, given)
      ensures Marks(u) == Marks(t) + if hasAuditor then [Statement(Normalize.Logged(query))] else []
    {
      if hasAuditor {
        AttemptMarks(t, u, at, RecordOf(query, before, answer), written);
      } else {
        MarksKept(t, u);
      }
    }

    ghost function Active(): Option<nat>
      reads next, next.forwarding
    {
      if next.forwarding == null then None else Some(next.forwarding.upstream)
    }

    /** The three kinds of query answered here. */
    method AnswerLocally(query: string)
      returns (result: Result?, err: Option<Error>, ghost at: nat, ghost written: bool)
      requires Valid() && Local(query)
      modifies next`forwarding, next`closed, next`terminal, world`trace, next.ActiveHandler()
      ensures Valid()
      ensures Handled(query, old(next.MaskedFieldCount()), old(Active()), old(world.trace), world.trace, at, written,
                      None, err, Given(result))
      ensures result != null ==> fresh(result)
      ensures written ==>
                && next.forwarding == old(next.forwarding) && next.terminal == old(next.terminal)
                && next.MaskedFieldCount() == old(next.MaskedFieldCount())
      ensures !written ==> next.forwarding == null && next.closed && next.terminal.Some?
      ensures old(next.terminal).Some? ==> next.terminal == old(next.terminal)
      ensures SameUpstreams(old(next.History()), next.History())
    {
      hide Safe, Summarize;
      ghost var t, before, active := world.trace, next.MaskedFieldCount(), Active();
      result := null;
      var kind, errorClass := classify(query).kind, NoErrorClass;
      if limits.maxQueryBytes > 0 && |query| > limits.maxQueryBytes {
        kind, errorClass := Reject, QueryTooLargeClass;
      } else if !IsAllowedDecision(classify(query)) {
        errorClass := PolicyRejectClass;
      }
      var ok;
      ok, at := AuditOrClose(query, kind, errorClass);
      written := ok;
      if !ok {
        err := Some(Unsupported);
      } else if errorClass == QueryTooLargeClass {
        err := Some(QueryTooLarge);
      } else if errorClass == PolicyRejectClass {
        err := Some(PolicyDenied);
      } else {
        err := None;
        result := new Result(MaxAllowedPacketView(next.lib, limits.maxQueryBytes));
      }
      LocalIsHandled(query, before, active, t, world.trace, at, written, err, Given(result));
    }

    /** Sets the query's own decision and runs it. */
    method RunUpstream(query: string) returns (result: Result?, err: Option<Error>, ghost answer: Option<Answer>)
      requires Valid() && !Local(query)
      modifies next`decision, next`forwarding, next`closed, next`terminal, world`trace, next.ActiveHandler()
      ensures Valid()
      ensures WorkOnly(old(world.trace), world.trace)
      ensures answer.Some? <==> old(Active()).Some?
      ensures answer.Some? ==>
                ExecutesOnce(old(world.trace), world.trace,
                             Executed(old(Active()).value, query, classify(query), answer.value))
      ensures answer.None? ==> !Executes(old(world.trace), world.trace)
      ensures (err, Given(result)) == ReplyTo(query, answer)
      ensures result != null ==> fresh(result)
      ensures next.MaskedFieldCount() == CountOf(query, answer)
      ensures next.forwarding == old(next.forwarding) || next.forwarding == null
      ensures old(next.terminal).Some? ==> next.terminal == old(next.terminal)
      ensures SameUpstreams(old(next.History()), next.History())
    {
      hide Safe, Summarize;
      var d := classify(query);
      next.SetQueryDecision(d);
      ghost var t := world.trace;
      ghost var active := next.forwarding;
      ghost var said;
      result, err, said := next.HandleQuery(query);
      answer := None;
      if active != null {
        answer := Some(said);
        QueryIsWork(t, Executed(active.upstream, query, d, said), Ending(next.lib, next.masker, limits, d, said));
      }
    }

    /** A query that goes upstream. It runs there when an upstream is active,
        and its own result is logged before it is returned. */
    method Forward(query: string)
      returns (result: Result?, err: Option<Error>, ghost at: nat, ghost written: bool, ghost answer: Option<Answer>)
      requires Valid() && !Local(query)
      modifies next`decision, next`forwarding, next`closed, next`terminal, world`trace, next.ActiveHandler()
      ensures Valid()
      ensures Handled(query, old(next.MaskedFieldCount()), old(Active()), old(world.trace), world.trace, at, written,
                      answer, err, Given(result))
      ensures result != null ==> fresh(result)
      ensures written ==> next.MaskedFieldCount() == CountOf(query, answer)
      ensures !written ==> next.forwarding == null && next.closed && next.terminal.Some?
      ensures next.forwarding == old(next.forwarding) || next.forwarding == null
      ensures old(next.terminal).Some? ==> next.terminal == old(next.terminal)
      ensures SameUpstreams(old(next.History()), next.History())
    {
      hide Safe, Summarize;
      ghost var t, before, active := world.trace, next.MaskedFieldCount(), Active();
      result, err, answer := RunUpstream(query);
      ghost var u := world.trace;
      var ok;
      ok, at := AuditOrClose(query, classify(query).kind, QueryErrorClass(err));
      written := ok;
      if !ok {
        result, err := null, Some(Unsupported);
      }
      WorkIsHandled(query, before, active, t, u, world.trace, at, written, answer, err, Given(result));
    }

    /** Every query is logged in exactly one attempt, and a result is returned
        only when that attempt succeeded. The query runs upstream exactly when
        it is not answered here and an upstream is active, and then the client
        gets what may be released of what the upstream answered. */
    method HandleQuery(query: string)
      returns (result: Result?, err: Option<Error>, ghost at: nat, ghost written: bool, ghost answer: Option<Answer>)
      requires Valid()
      modifies next`decision, next`forwarding, next`closed, next`terminal, world`trace, next.ActiveHandler()
      ensures Valid()
      ensures Handled(query, old(next.MaskedFieldCount()), old(Active()), old(world.trace), world.trace, at, written,
                      answer, err, Given(result))
      ensures result != null ==> fresh(result)
      ensures written ==>
                next.MaskedFieldCount()
                == if Local(query) then old(next.MaskedFieldCount()) else CountOf(query, answer)
      ensures !written ==> next.forwarding == null && next.closed && next.terminal.Some?
      ensures next.forwarding == old(next.forwarding) || next.forwarding == null
      ensures old(next.terminal).Some? ==> next.terminal == old(next.terminal)
      ensures SameUpstreams(old(next.History()), next.History())
    {
      hide Safe, Summarize;
      if Local(query) {
        answer := None;
        result, err, at, written := AnswerLocally(query);
      } else {
        result, err, at, written, answer := Forward(query);
      }
    }
  }

  /** A query answered locally right after a forwarded one is logged with the
      number of cells masked in the other's result; `OneCellMasked` shows that
      the number need not be zero. */
  method ForwardThenLocal(session: PolicyHandler, first: string, second: string)
    returns (ghost at: nat, ghost written: bool, ghost later: bool, ghost answer: Option<Answer>)
    requires session.Valid() && session.hasAuditor && !session.Local(first) && session.Local(second)
    modifies session.next`decision, session.next`forwarding, session.next`closed, session.next`terminal
    modifies session.world`trace, session.next.ActiveHandler()
    ensures session.Valid()
    ensures answer.Some? <==> old(session.Active()).Some?
    ensures answer.Some? ==>
              Executed(old(session.Active()).value, first, session.classify(first), answer.value)
              in session.world.trace
    ensures at < |session.world.trace|
    ensures written ==>
              session.world.trace[at] == QueryLogged(session.LocalRecord(second, session.CountOf(first, answer)), later)
  {
    ghost var i;
    var result, err;
    result, err, i, written, answer := session.HandleQuery(first);
    ghost var t, unused := session.world.trace, answer;
    result, err, at, later, unused := session.HandleQuery(second);
    assert t <= session.world.trace;
  }
}
