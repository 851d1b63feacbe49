/**
 Everything one client connection does to the outside world, in order, and
 what the session stack promises of that order.
 */
module Trace {
  import opened Common
  import opened Decisions
  import opened Resultset

  /** Errors as the handlers tell them apart. The first five are MySQL protocol
      errors, after which an upstream connection stays usable. */
  datatype Error =
    | Unsupported | PolicyDenied | QueryTooLarge | InsecureTransport | UpstreamRefused(code: nat)
    | RowLimitExceeded | ByteLimitExceeded | BadRow | AuditFailure | CredentialRefused | Transport(code: nat)
  {
    predicate IsMySQLError() {
      Unsupported? || PolicyDenied? || QueryTooLarge? || InsecureTransport? || UpstreamRefused?
    }
  }

  datatype ErrorClass = NoErrorClass | QueryTooLargeClass | PolicyRejectClass | MySQLErrorClass | ProxyErrorClass

  datatype QueryRecord = QueryRecord(user: string, statement: string, decision: DecisionKind, maskedFields: nat,
                                     errorClass: ErrorClass)

  /** What a streaming upstream has to say about one query: the rows it will
      deliver, then an error or the rest of the result. */
  datatype RowStream = RowStream(rows: seq<seq<FieldValue>>, end: Option<Error>, head: View)

  /** What an upstream answers to one query: an error and a result that may be
      missing, all at once, or a stream of rows. */
  datatype Answer = Whole(err: Option<Error>, result: Option<View>) | Streamed(stream: RowStream)

  /** Upstream connections are named by number. What the outside answered is
      part of the event: the error of selecting a database, the answer to a
      query, the owner of a credential, whether a record was written. */
  datatype Event =
    | Opened(upstream: nat)
    | ConnectFailed
    | Activated(upstream: nat)
    | UsedDB(upstream: nat, database: string, refused: Option<Error>)
    | Executed(upstream: nat, query: string, decision: Decision, answer: Answer)
    | Closed(upstream: nat)
    | NameAccepted(database: string)
    | QueryLogged(record: QueryRecord, written: bool)
    | CredentialConsumed(login: string, owner: Option<string>)
    | CacheInvalidated(login: string)
    | FailureRecorded(login: string)
    | AuthLogged(user: string, allowed: bool, written: bool)
    | CommandStarted
    | ClientLost
    | BecameTerminal(cause: Error)

  /** What the session's future may depend on. `parked` is the last database
      name accepted before the first activation; `selected` says which names were
      selected where; `orphans` are upstreams that were active when another one
      was activated. */
  datatype Summary = Summary(
    known: set<nat>,
    open: set<nat>,
    active: Option<nat>,
    everActive: bool,
    orphans: set<nat>,
    logLost: bool,
    name: Option<string>,
    parked: Option<string>,
    selected: set<(nat, string)>,
    consumed: Option<string>,
    user: string,
    finished: bool,
    clientLost: bool)

  /** No upstream was opened or orphaned between the two, nor the client lost. */
  predicate SameUpstreams(a: Summary, b: Summary) {
    a.known == b.known && a.orphans == b.orphans && a.clientLost == b.clientLost
  }

  const NOTHING := Summary({}, {}, None, false, {}, false, None, None, {}, None, "", false, false)

  function Next(s: Summary, e: Event): Summary {
    match e
    case Opened(u) => s.(known := s.known + {u}, open := s.open + {u})
    case Activated(u) =>
      s.(active := Some(u), everActive := true,
         orphans := s.orphans + if s.active.Some? then {s.active.value} else {})
    case Closed(u) => s.(open := s.open - {u}, active := if s.active == Some(u) then None else s.active)
    case NameAccepted(db) => s.(name := Some(db), parked := if s.everActive then s.parked else Some(db))
    case QueryLogged(_, written) => s.(logLost := s.logLost || !written)
    case CredentialConsumed(_, owner) => s.(consumed := owner)
    case AuthLogged(user, allowed, written) => if allowed && written then s.(user := user) else s
    case BecameTerminal(_) => s.(finished := true)
    case ClientLost => s.(clientLost := true)
    case UsedDB(u, db, refused) => if refused.None? then s.(selected := s.selected + {(u, db)}) else s
    case ConnectFailed | Executed(_, _, _, _) | CacheInvalidated(_) | FailureRecorded(_) | CommandStarted => s
  }

  function Summarize(t: seq<Event>): Summary {
    if t == [] then NOTHING else Next(Summarize(t[..|t| - 1]), t[|t| - 1])
  }

  datatype Rules = Rules(classify: string -> Decision, allowedSchemas: set<string>, maxQueryBytes: int)
  {
    /** A query that may be sent upstream, with its own decision. */
    predicate Sendable(query: string, d: Decision) {
      && d == classify(query)
      && IsAllowedDecision(d)
      && (maxQueryBytes > 0 ==> |query| <= maxQueryBytes)
    }
  }

  const NO_RULES := Rules(s => Decision(Reject, []), {}, 0)

  /** The event may follow a history with this summary. */
  predicate Permitted(rules: Rules, s: Summary, e: Event) {
    match e
    case Opened(u) => u !in s.known
    case Activated(u) =>
      && u in s.open - s.orphans && s.active != Some(u) && !s.logLost
      && (s.parked.Some? && s.parked.value != "" ==> (u, s.parked.value) in s.selected)
    case UsedDB(u, db, _) =>
      && u in s.open && !s.logLost && db in rules.allowedSchemas
      && Some(db) == if s.active == Some(u) then s.name else s.parked
    case Executed(u, q, d, _) => s.active == Some(u) && u in s.open && !s.logLost && rules.Sendable(q, d)
    case Closed(u) => u in s.open
    case NameAccepted(db) => db in rules.allowedSchemas
    case QueryLogged(record, _) => record.user == s.user
    case CredentialConsumed(_, _) => s.active.Some?
    case AuthLogged(user, allowed, _) => allowed ==> s.active.Some? && s.consumed == Some(user)
    case CommandStarted => !s.finished && !s.clientLost
    case BecameTerminal(_) => !s.finished
    case ConnectFailed | CacheInvalidated(_) | FailureRecorded(_) | ClientLost => true
  }

  predicate Safe(rules: Rules, t: seq<Event>) {
    t == [] ||
    (Safe(rules, t[..|t| - 1]) && Permitted(rules, Summarize(t[..|t| - 1]), t[|t| - 1]))
  }

  lemma Extend(rules: Rules, t: seq<Event>, e: Event)
    ensures Summarize(t + [e]) == Next(Summarize(t), e)
    ensures Safe(rules, t + [e]) <==> Safe(rules, t) && Permitted(rules, Summarize(t), e)
  {
    assert (t + [e])[..|t|] == t;
  }

  /** The event, and the close that follows it when `closed`. */
  function ThenClosed(e: Event, closed: bool, u: nat): seq<Event> {
    [e] + if closed then [Closed(u)] else []
  }

  /** Work on the active upstream, which ends the session when it ends in an error. */
  function AfterWork(t: seq<Event>, e: Event, ending: Option<Error>): seq<Event>
    requires e.UsedDB? || e.Executed?
  {
    t + ThenClosed(e, ending.Some?, e.upstream) + if ending.Some? then [BecameTerminal(ending.value)] else []
  }

  lemma ExtendThenClosed(rules: Rules, t: seq<Event>, e: Event, closed: bool, u: nat)
    ensures var next := Next(Summarize(t), e);
            && Summarize(t + ThenClosed(e, closed, u)) == (if closed then Next(next, Closed(u)) else next)
            && (Safe(rules, t + ThenClosed(e, closed, u)) <==>
                  Safe(rules, t) && Permitted(rules, Summarize(t), e) && (closed ==> Permitted(rules, next, Closed(u))))
  {
    Extend(rules, t, e);
    Extend(rules, t + [e], Closed(u));
    assert t + [e] + [Closed(u)] == t + ([e] + [Closed(u)]);
    assert [e] + [] == [e];
  }

  /** Work on the active upstream that leaves the session open. */
  lemma SessionContinues(rules: Rules, t: seq<Event>, e: Event)
    requires Safe(rules, t) && Permitted(rules, Summarize(t), e) && (e.UsedDB? || e.Executed?)
    ensures Safe(rules, t + ThenClosed(e, false, e.upstream))
    ensures Summarize(t + ThenClosed(e, false, e.upstream)) == Next(Summarize(t), e)
  {
    ExtendThenClosed(rules, t, e, false, e.upstream);
  }

  lemma ClosedLater(t: seq<Event>, e: Event, u: nat)
    ensures t + ThenClosed(e, false, u) + [Closed(u)] == t + ThenClosed(e, true, u)
  {
  }

  /** A selection on an upstream that is not active yet. */
  lemma SelectionOnNew(rules: Rules, t: seq<Event>, e: Event, closed: bool)
    requires Safe(rules, t) && Permitted(rules, Summarize(t), e) && e.UsedDB?
    requires Summarize(t).active != Some(e.upstream)
    ensures var after := t + ThenClosed(e, closed, e.upstream);
            && Safe(rules, after)
            && Summarize(after)
               == if closed then Next(Summarize(t), e).(open := Summarize(t).open - {e.upstream})
                  else Next(Summarize(t), e)
  {
    ExtendThenClosed(rules, t, e, closed, e.upstream);
  }

  /** Work on the active upstream that ends the session. */
  lemma SessionEnds(rules: Rules, t: seq<Event>, e: Event, cause: Error)
    requires Safe(rules, t) && Permitted(rules, Summarize(t), e) && (e.UsedDB? || e.Executed?)
    requires Summarize(t).active == Some(e.upstream) && !Summarize(t).finished
    ensures var after := t + ThenClosed(e, true, e.upstream) + [BecameTerminal(cause)];
            && Safe(rules, after)
            && Summarize(after) == Next(Summarize(t), e).(open := Summarize(t).open - {e.upstream}, active := None,
                                                          finished := true)
  {
    ExtendThenClosed(rules, t, e, true, e.upstream);
    Extend(rules, t + ThenClosed(e, true, e.upstream), BecameTerminal(cause));
  }

  /** A terminal error, and the close of the active upstream that follows it. */
  lemma SessionIsEnded(rules: Rules, t: seq<Event>, cause: Error, u: nat)
    requires Safe(rules, t) && !Summarize(t).finished
    requires u in Summarize(t).open && Summarize(t).active == Some(u)
    ensures var after := t + ThenClosed(BecameTerminal(cause), true, u);
            && Safe(rules, after)
            && Summarize(after) == Summarize(t).(open := Summarize(t).open - {u}, active := None, finished := true)
  {
    ExtendThenClosed(rules, t, BecameTerminal(cause), true, u);
  }

  // ----- what was asked for

  /** The part of a history that the client's requests determine: the commands,
      the database names that were accepted and the statements that were logged. */
  datatype Mark = Command | Name(database: string) | Statement(statement: string)

  function MarkOf(e: Event): seq<Mark> {
    match e
    case CommandStarted => [Command]
    case NameAccepted(database) => [Name(database)]
    case QueryLogged(record, _) => [Statement(record.statement)]
    case _ => []
  }

  function Marks(t: seq<Event>): seq<Mark> {
    if t == [] then [] else Marks(t[..|t| - 1]) + MarkOf(t[|t| - 1])
  }

  lemma MarksExtend(t: seq<Event>, e: Event)
    ensures Marks(t + [e]) == Marks(t) + MarkOf(e)
  {
    assert (t + [e])[..|t|] == t;
  }

  /** Events that leave no mark leave the marks alone. */
  lemma {:induction false} MarksKept(t: seq<Event>, u: seq<Event>)
    requires t <= u && forall i :: |t| <= i < |u| ==> MarkOf(u[i]) == []
    ensures Marks(u) == Marks(t)
  {
    if |u| == |t| {
      assert u == t;
    } else {
      var front := u[..|u| - 1];
      assert forall i :: |t| <= i < |front| ==> front[i] == u[i];
      MarksKept(t, front);
    }
  }

  /** The history u has these marks beyond those of t. */
  predicate MarksGrew(t: seq<Event>, u: seq<Event>, added: seq<Mark>) {
    Marks(u) == Marks(t) + added
  }

  lemma MarksGrewFurther(t: seq<Event>, u: seq<Event>, w: seq<Event>, first: seq<Mark>, second: seq<Mark>)
    requires MarksGrew(t, u, first) && MarksGrew(u, w, second)
    ensures MarksGrew(t, w, first + second)
  {
    assert Marks(t) + first + second == Marks(t) + (first + second);
  }

  lemma NoMarks(t: seq<Event>, u: seq<Event>)
    requires Marks(u) == Marks(t)
    ensures MarksGrew(t, u, [])
  {
  }

  /** A history that continues t with one marked event among unmarked ones. */
  lemma MarksThrough(t: seq<Event>, u: seq<Event>, at: nat)
    requires t <= u && |t| <= at < |u|
    requires forall i :: |t| <= i < |u| && i != at ==> MarkOf(u[i]) == []
    ensures Marks(u) == Marks(t) + MarkOf(u[at])
  {
    MarksKept(t, u[..at]);
    assert u[..at + 1] == u[..at] + [u[at]];
    MarksExtend(u[..at], u[at]);
    MarksKept(u[..at + 1], u);
  }

  // ----- what a safe trace means

  lemma {:induction false} SafePrefix(rules: Rules, t: seq<Event>, n: nat)
    requires Safe(rules, t) && n <= |t|
    ensures Safe(rules, t[..n])
  {
    if n == |t| {
      assert t[..n] == t;
    } else {
      SafePrefix(rules, t[..|t| - 1], n);
      assert t[..|t| - 1][..n] == t[..n];
    }
  }

  lemma SafeAt(rules: Rules, t: seq<Event>, i: nat)
    requires Safe(rules, t) && i < |t|
    ensures Permitted(rules, Summarize(t[..i]), t[i])
    ensures Summarize(t[..i + 1]) == Next(Summarize(t[..i]), t[i])
  {
    SafePrefix(rules, t, i + 1);
    assert t[..i + 1] == t[..i] + [t[i]];
    Extend(rules, t[..i], t[i]);
  }

  predicate Touches(e: Event, u: nat) {
    || e == Closed(u) || e == Opened(u) || e == Activated(u)
    || (e.UsedDB? && e.upstream == u) || (e.Executed? && e.upstream == u)
  }

  lemma {:induction false} ClosedStaysClosed(rules: Rules, t: seq<Event>, i: nat, j: nat, u: nat)
    requires Safe(rules, t) && i < j <= |t| && t[i] == Closed(u)
    ensures u !in Summarize(t[..j]).open && u in Summarize(t[..j]).known
    ensures Summarize(t[..j]).active != Some(u)
    decreases j
  {
    SafeAt(rules, t, j - 1);
    if j == i + 1 {
      OpenWasOpened(rules, t, i);
    } else {
      ClosedStaysClosed(rules, t, i, j - 1, u);
    }
  }

  lemma {:induction false} OpenWasOpened(rules: Rules, t: seq<Event>, n: nat)
    requires Safe(rules, t) && n <= |t|
    ensures Summarize(t[..n]).open <= Summarize(t[..n]).known
  {
    if n > 0 {
      OpenWasOpened(rules, t, n - 1);
      SafeAt(rules, t, n - 1);
    }
  }

  lemma OrphansStep(rules: Rules, s: Summary, e: Event)
    requires Permitted(rules, s, e) && s.orphans <= s.known && s.open <= s.known
    requires s.active.Some? ==> s.active.value in s.known
    ensures Next(s, e).orphans <= Next(s, e).known
    ensures Next(s, e).active.Some? ==> Next(s, e).active.value in Next(s, e).known
  {
  }

  lemma {:induction false} OrphansWereOpened(rules: Rules, t: seq<Event>)
    requires Safe(rules, t)
    ensures Summarize(t).orphans <= Summarize(t).known
    ensures Summarize(t).active.Some? ==> Summarize(t).active.value in Summarize(t).known
  {
    if t != [] {
      OrphansWereOpened(rules, t[..|t| - 1]);
      OpenWasOpened(rules, t, |t| - 1);
      OrphansStep(rules, Summarize(t[..|t| - 1]), t[|t| - 1]);
    }
  }

  /** A new upstream is opened: it is not active and was not orphaned. */
  lemma NewUpstream(rules: Rules, t: seq<Event>, u: nat)
    requires Safe(rules, t) && u !in Summarize(t).known
    ensures Safe(rules, t + [Opened(u)])
    ensures Summarize(t + [Opened(u)]) == Next(Summarize(t), Opened(u))
    ensures u !in Summarize(t).open && u !in Summarize(t).orphans && Summarize(t).active != Some(u)
    ensures Summarize(t).orphans <= Summarize(t).known
  {
    Extend(rules, t, Opened(u));
    OpenWasOpened(rules, t, |t|);
    assert t[..|t|] == t;
    OrphansWereOpened(rules, t);
  }

  /** Nothing is done to an upstream after it was closed; in particular it is
      closed at most once. */
  lemma NothingAfterClose(rules: Rules, t: seq<Event>, i: nat, j: nat, u: nat)
    requires Safe(rules, t) && i < j < |t| && t[i] == Closed(u)
    ensures !Touches(t[j], u)
  {
    ClosedStaysClosed(rules, t, i, j, u);
    SafeAt(rules, t, j);
  }

  lemma {:induction false} LogLossIsFinal(rules: Rules, t: seq<Event>, i: nat, j: nat)
    requires Safe(rules, t) && i < j <= |t| && t[i].QueryLogged? && !t[i].written
    ensures Summarize(t[..j]).logLost
    decreases j
  {
    SafeAt(rules, t, j - 1);
    if j > i + 1 {
      LogLossIsFinal(rules, t, i, j - 1);
    }
  }

  /** Once a query record could not be written, no database is selected and no
      query is run on any upstream, whatever happens afterwards. */
  lemma NoWorkAfterLogLoss(rules: Rules, t: seq<Event>, i: nat, j: nat)
    requires Safe(rules, t) && i < j < |t| && t[i].QueryLogged? && !t[i].written
    ensures !t[j].UsedDB? && !t[j].Executed? && !t[j].Activated?
  {
    LogLossIsFinal(rules, t, i, j);
    SafeAt(rules, t, j);
  }

  lemma {:induction false} FinishedIsFinal(rules: Rules, t: seq<Event>, i: nat, j: nat)
    requires Safe(rules, t) && i < j <= |t| && t[i].BecameTerminal?
    ensures Summarize(t[..j]).finished
    decreases j
  {
    SafeAt(rules, t, j - 1);
    if j > i + 1 {
      FinishedIsFinal(rules, t, i, j - 1);
    }
  }

  /** The first terminal error is final: it is never replaced and no command is
      handled after it. */
  lemma FirstTerminalIsLast(rules: Rules, t: seq<Event>, i: nat, j: nat)
    requires Safe(rules, t) && i < j < |t| && t[i].BecameTerminal?
    ensures t[j] != CommandStarted && !t[j].BecameTerminal?
  {
    FinishedIsFinal(rules, t, i, j);
    SafeAt(rules, t, j);
  }

  lemma {:induction false} LossIsFinal(rules: Rules, t: seq<Event>, i: nat, j: nat)
    requires Safe(rules, t) && i < j <= |t| && t[i] == ClientLost
    ensures Summarize(t[..j]).clientLost
    decreases j
  {
    SafeAt(rules, t, j - 1);
    if j > i + 1 {
      LossIsFinal(rules, t, i, j - 1);
    }
  }

  /** No command is handled once the client could not be reached. */
  lemma NoCommandAfterLoss(rules: Rules, t: seq<Event>, i: nat, j: nat)
    requires Safe(rules, t) && i < j < |t| && t[i] == ClientLost
    ensures t[j] != CommandStarted
  {
    LossIsFinal(rules, t, i, j);
    SafeAt(rules, t, j);
  }

  ghost predicate LastAccepted(t: seq<Event>, n: nat, db: string)
    requires n <= |t|
  {
    exists k :: 0 <= k < n && t[k] == NameAccepted(db) && forall m :: k < m < n ==> !t[m].NameAccepted?
  }

  lemma LastAcceptedStep(t: seq<Event>, n: nat, db: string)
    requires n < |t|
    ensures LastAccepted(t, n + 1, db) <==> t[n] == NameAccepted(db) || (LastAccepted(t, n, db) && !t[n].NameAccepted?)
  {
    if LastAccepted(t, n, db) && !t[n].NameAccepted? {
      var k :| 0 <= k < n && t[k] == NameAccepted(db) && forall m :: k < m < n ==> !t[m].NameAccepted?;
      assert forall m :: k < m < n + 1 ==> !t[m].NameAccepted?;
    }
  }

  lemma {:induction false} NameIsLastAccepted(rules: Rules, t: seq<Event>, n: nat, db: string)
    requires Safe(rules, t) && n <= |t|
    ensures Summarize(t[..n]).name == Some(db) <==> LastAccepted(t, n, db)
  {
    if n > 0 {
      NameIsLastAccepted(rules, t, n - 1, db);
      SafeAt(rules, t, n - 1);
      LastAcceptedStep(t, n - 1, db);
    }
  }

  lemma {:induction false} ParkedWhileInactive(rules: Rules, t: seq<Event>, n: nat)
    requires Safe(rules, t) && n <= |t|
    ensures !Summarize(t[..n]).everActive ==> Summarize(t[..n]).parked == Summarize(t[..n]).name
  {
    if n > 0 {
      ParkedWhileInactive(rules, t, n - 1);
      SafeAt(rules, t, n - 1);
    }
  }

  /** A database name sent to an upstream is always on the allow list. It is the
      last accepted one exactly when it goes to the active upstream, or no other
      name has been accepted since the one that is kept for replay. */
  lemma SelectedNameIff(rules: Rules, t: seq<Event>, j: nat)
    requires Safe(rules, t) && j < |t| && t[j].UsedDB?
    ensures t[j].database in rules.allowedSchemas
    ensures var s := Summarize(t[..j]);
            LastAccepted(t, j, t[j].database) <==> s.active == Some(t[j].upstream) || s.parked == s.name
  {
    SafeAt(rules, t, j);
    NameIsLastAccepted(rules, t, j, t[j].database);
  }

  /** At most one upstream is ever opened. */
  ghost predicate OpensOnce(t: seq<Event>) {
    forall i, k :: 0 <= i < k < |t| && t[i].Opened? ==> !t[k].Opened?
  }

  lemma NothingBefore(rules: Rules, t: seq<Event>, n: nat)
    requires Safe(rules, t) && n < |t| && OpensOnce(t) && t[n].Opened?
    ensures Summarize(t[..n]).known == {} && !Summarize(t[..n]).everActive
  {
    forall v ensures v !in Summarize(t[..n]).known {
      KnownWasOpened(rules, t, n, v);
    }
    NeverActiveUnknown(rules, t, n);
  }

  /** No upstream but u is known, and once one was active, u is active or closed. */
  predicate Sole(s: Summary, u: nat) {
    && s.open <= s.known
    && (forall v :: v in s.known ==> v == u)
    && (s.everActive && u in s.open ==> s.active == Some(u))
  }

  lemma SoleStep(rules: Rules, s: Summary, e: Event, u: nat)
    requires Sole(s, u) && Permitted(rules, s, e)
    requires e.Opened? ==> e.upstream == u && !s.everActive
    ensures Sole(Next(s, e), u)
  {
  }

  lemma {:induction false} SoleUpstream(rules: Rules, t: seq<Event>, n: nat, u: nat)
    requires Safe(rules, t) && n <= |t| && OpensOnce(t) && Occurs(t, |t|, Opened(u))
    ensures Sole(Summarize(t[..n]), u)
  {
    if n > 0 {
      SoleUpstream(rules, t, n - 1, u);
      SafeAt(rules, t, n - 1);
      if t[n - 1].Opened? {
        NothingBefore(rules, t, n - 1);
      }
      SoleStep(rules, Summarize(t[..n - 1]), t[n - 1], u);
    }
  }

  lemma {:induction false} KnownWasOpened(rules: Rules, t: seq<Event>, n: nat, v: nat)
    requires Safe(rules, t) && n <= |t|
    ensures v in Summarize(t[..n]).known <==> Occurs(t, n, Opened(v))
  {
    if n > 0 {
      KnownWasOpened(rules, t, n - 1, v);
      SafeAt(rules, t, n - 1);
      OccursStep(t, n - 1, Opened(v));
    }
  }

  lemma {:induction false} NeverActiveUnknown(rules: Rules, t: seq<Event>, n: nat)
    requires Safe(rules, t) && n <= |t|
    ensures Summarize(t[..n]).known == {} ==> !Summarize(t[..n]).everActive
  {
    if n > 0 {
      NeverActiveUnknown(rules, t, n - 1);
      SafeAt(rules, t, n - 1);
      OpenWasOpened(rules, t, n - 1);
    }
  }

  /** With one upstream in all, every name sent to it, replay included, is the
      last accepted one. */
  lemma SelectedNameIsLastAccepted(rules: Rules, t: seq<Event>, j: nat)
    requires Safe(rules, t) && j < |t| && t[j].UsedDB? && OpensOnce(t)
    ensures LastAccepted(t, j, t[j].database) && t[j].database in rules.allowedSchemas
  {
    SelectedNameIff(rules, t, j);
    SafeAt(rules, t, j);
    OpenWasOpened(rules, t, j);
    KnownWasOpened(rules, t, j, t[j].upstream);
    SoleUpstream(rules, t, j, t[j].upstream);
    ParkedWhileInactive(rules, t, j);
  }

  lemma {:induction false} KnownGrows(rules: Rules, t: seq<Event>, i: nat, j: nat)
    requires Safe(rules, t) && i < j <= |t| && t[i].Opened?
    ensures t[i].upstream in Summarize(t[..j]).known
    decreases j
  {
    SafeAt(rules, t, j - 1);
    if j > i + 1 {
      KnownGrows(rules, t, i, j - 1);
    }
  }

  predicate AtMostOne(s: set<nat>) {
    forall a, b :: a in s && b in s ==> a == b
  }

  predicate AtMostOneMore(a: set<nat>, b: set<nat>) {
    forall u, v :: u in b && u !in a && v in b && v !in a ==> u == v
  }

  lemma OneKnownOpensOnce(rules: Rules, t: seq<Event>)
    requires Safe(rules, t) && AtMostOne(Summarize(t).known)
    ensures OpensOnce(t)
  {
    assert t[..|t|] == t;
    forall i, k | 0 <= i < k < |t| && t[i].Opened? ensures !t[k].Opened? {
      if t[k].Opened? {
        KnownGrows(rules, t, i, k);
        SafeAt(rules, t, k);
        KnownGrows(rules, t, i, |t|);
        KnownGrows(rules, t, k, |t|);
      }
    }
  }

  /** With one upstream in all, every selection in the history is of the last
      accepted name. */
  lemma AllSelectionsAreLast(rules: Rules, t: seq<Event>)
    requires Safe(rules, t) && AtMostOne(Summarize(t).known)
    ensures forall j :: 0 <= j < |t| && t[j].UsedDB? ==> LastAccepted(t, j, t[j].database)
  {
    OneKnownOpensOnce(rules, t);
    forall j | 0 <= j < |t| && t[j].UsedDB? ensures LastAccepted(t, j, t[j].database) {
      SelectedNameIsLastAccepted(rules, t, j);
    }
  }

  /** Two authentication successes: the second upstream is sent the name kept
      before the first one, although another was accepted since. */
  lemma StaleReplay(rules: Rules, a: string, b: string)
    requires a != b && a in rules.allowedSchemas && b in rules.allowedSchemas
    ensures var t := StaleRun(a, b);
            Safe(rules, t) && t[7] == UsedDB(1, a, None) && LastAccepted(t, 7, b) && !LastAccepted(t, 7, a)
  {
    var t := StaleRun(a, b);
    FirstActivation(rules, t, a);
    SecondUpstream(rules, t, a, b);
    assert t[..8] == t && t[4] == NameAccepted(b);
  }

  lemma SecondUpstream(rules: Rules, t: seq<Event>, a: string, b: string)
    requires |t| >= 8 && Safe(rules, t[..4]) && a in rules.allowedSchemas && b in rules.allowedSchemas
    requires Summarize(t[..4]) == Summary({0}, {0}, Some(0), true, {}, false, Some(a), Some(a), {(0, a)}, None, "",
                                          false, false)
    requires t[4] == NameAccepted(b) && t[5] == UsedDB(0, b, None) && t[6] == Opened(1) && t[7] == UsedDB(1, a, None)
    ensures Safe(rules, t[..8])
  {
    ExtendAt(rules, t, 4);
    ExtendAt(rules, t, 5);
    ExtendAt(rules, t, 6);
    ExtendAt(rules, t, 7);
  }

  lemma FirstActivation(rules: Rules, t: seq<Event>, a: string)
    requires |t| >= 4 && t[..4] == [NameAccepted(a), Opened(0), UsedDB(0, a, None), Activated(0)]
    requires a in rules.allowedSchemas
    ensures Safe(rules, t[..4])
    ensures Summarize(t[..4]) == Summary({0}, {0}, Some(0), true, {}, false, Some(a), Some(a), {(0, a)}, None, "",
                                           false, false)
  {
    assert forall i :: 0 <= i < 4 ==> t[i] == t[..4][i];
    ExtendAt(rules, t, 0);
    ExtendAt(rules, t, 1);
    ExtendAt(rules, t, 2);
    ExtendAt(rules, t, 3);
  }

  lemma ExtendAt(rules: Rules, t: seq<Event>, n: nat)
    requires n < |t|
    ensures Summarize(t[..n + 1]) == Next(Summarize(t[..n]), t[n])
    ensures Safe(rules, t[..n + 1]) <==> Safe(rules, t[..n]) && Permitted(rules, Summarize(t[..n]), t[n])
  {
    assert t[..n + 1] == t[..n] + [t[n]];
    Extend(rules, t[..n], t[n]);
  }

  function StaleRun(a: string, b: string): seq<Event> {
    [NameAccepted(a), Opened(0), UsedDB(0, a, None), Activated(0),
     NameAccepted(b), UsedDB(0, b, None), Opened(1), UsedDB(1, a, None)]
  }

  lemma {:induction false} SelectedIff(rules: Rules, t: seq<Event>, n: nat, u: nat, db: string)
    requires Safe(rules, t) && n <= |t|
    ensures (u, db) in Summarize(t[..n]).selected <==> Occurs(t, n, UsedDB(u, db, None))
  {
    if n > 0 {
      SelectedIff(rules, t, n - 1, u, db);
      SafeAt(rules, t, n - 1);
      OccursStep(t, n - 1, UsedDB(u, db, None));
    }
  }

  lemma {:induction false} NotYetActive(rules: Rules, t: seq<Event>, n: nat)
    requires Safe(rules, t) && n <= |t| && forall i :: 0 <= i < n ==> !t[i].Activated?
    ensures !Summarize(t[..n]).everActive
  {
    if n > 0 {
      NotYetActive(rules, t, n - 1);
      SafeAt(rules, t, n - 1);
    }
  }

  /** The first upstream to become active has had the last accepted name, if that
      is not empty, selected on it without an error. */
  lemma ActivatedOnItsDatabase(rules: Rules, t: seq<Event>, j: nat, db: string)
    requires Safe(rules, t) && j < |t| && t[j].Activated? && forall i :: 0 <= i < j ==> !t[i].Activated?
    requires LastAccepted(t, j, db) && db != ""
    ensures Occurs(t, j, UsedDB(t[j].upstream, db, None))
  {
    NotYetActive(rules, t, j);
    ParkedWhileInactive(rules, t, j);
    NameIsLastAccepted(rules, t, j, db);
    SafeAt(rules, t, j);
    SelectedIff(rules, t, j, t[j].upstream, db);
  }

  /** Every query that reaches an upstream is within the size limit and runs
      under its own, allowed, classification. */
  lemma ExecutedQueriesAreSendable(rules: Rules, t: seq<Event>, j: nat)
    requires Safe(rules, t) && j < |t| && t[j].Executed?
    ensures rules.Sendable(t[j].query, t[j].decision)
  {
    SafeAt(rules, t, j);
  }

  /** The event is among the first n. */
  ghost predicate Occurs(t: seq<Event>, n: nat, e: Event)
    requires n <= |t|
  {
    exists i :: 0 <= i < n && t[i] == e
  }

  lemma OccursStep(t: seq<Event>, n: nat, e: Event)
    requires n < |t|
    ensures Occurs(t, n + 1, e) <==> Occurs(t, n, e) || t[n] == e
  {
  }

  lemma OpenedWasNotClosed(rules: Rules, t: seq<Event>, n: nat, u: nat)
    requires Safe(rules, t) && n < |t| && t[n] == Opened(u)
    ensures !Occurs(t, n, Closed(u))
  {
    SafeAt(rules, t, n);
    forall i | 0 <= i < n ensures t[i] != Closed(u) {
      if t[i] == Closed(u) {
        ClosedStaysClosed(rules, t, i, n, u);
      }
    }
  }

  /** An upstream is open between its Opened and its Closed. */
  lemma {:induction false} OpenUpstreams(rules: Rules, t: seq<Event>, n: nat, u: nat)
    requires Safe(rules, t) && n <= |t|
    ensures u in Summarize(t[..n]).open <==> Occurs(t, n, Opened(u)) && !Occurs(t, n, Closed(u))
  {
    if n > 0 {
      OpenUpstreams(rules, t, n - 1, u);
      SafeAt(rules, t, n - 1);
      OccursStep(t, n - 1, Opened(u));
      OccursStep(t, n - 1, Closed(u));
      if t[n - 1] == Opened(u) {
        OpenedWasNotClosed(rules, t, n - 1, u);
      }
    }
  }

  lemma {:induction false} OrphansNeedTwoActivations(rules: Rules, t: seq<Event>, n: nat)
    requires Safe(rules, t) && n <= |t|
    requires forall i, j :: 0 <= i < j < n && t[i].Activated? ==> !t[j].Activated?
    ensures Summarize(t[..n]).orphans == {}
  {
    if n > 0 {
      OrphansNeedTwoActivations(rules, t, n - 1);
      SafeAt(rules, t, n - 1);
      ActiveWasActivated(rules, t, n - 1);
    }
  }

  lemma {:induction false} ActiveWasActivated(rules: Rules, t: seq<Event>, n: nat)
    requires Safe(rules, t) && n <= |t|
    ensures var s := Summarize(t[..n]); s.active.Some? ==> exists k :: 0 <= k < n && t[k] == Activated(s.active.value)
  {
    if n > 0 {
      ActiveWasActivated(rules, t, n - 1);
      SafeAt(rules, t, n - 1);
    }
  }

  ghost predicate ClosedOnce(t: seq<Event>, u: nat) {
    exists i :: 0 <= i < |t| && t[i] == Closed(u) && forall j :: 0 <= j < |t| && t[j] == Closed(u) ==> j == i
  }

  /** At the end of a session that left only orphans open, every upstream that
      was opened has been closed exactly once, unless a second activation
      replaced it; and with at most one activation there is no such upstream. */
  lemma EveryUpstreamClosedOnce(rules: Rules, t: seq<Event>, u: nat)
    requires Safe(rules, t) && Summarize(t).open == Summarize(t).orphans
    requires exists i :: 0 <= i < |t| && t[i] == Opened(u)
    ensures ClosedOnce(t, u) <==> u !in Summarize(t).orphans
    ensures (forall i, j :: 0 <= i < j < |t| && t[i].Activated? ==> !t[j].Activated?) ==> ClosedOnce(t, u)
  {
    assert t[..|t|] == t;
    OpenUpstreams(rules, t, |t|, u);
    if u !in Summarize(t).orphans {
      var i :| 0 <= i < |t| && t[i] == Closed(u);
      forall j | 0 <= j < |t| && t[j] == Closed(u) ensures j == i {
        if i < j {
          NothingAfterClose(rules, t, i, j, u);
        } else if j < i {
          NothingAfterClose(rules, t, j, i, u);
        }
      }
    }
    if forall i, j :: 0 <= i < j < |t| && t[i].Activated? ==> !t[j].Activated? {
      OrphansNeedTwoActivations(rules, t, |t|);
    }
  }

  lemma AllClosedOnce(rules: Rules, t: seq<Event>)
    requires Safe(rules, t) && Summarize(t).open == Summarize(t).orphans == {}
    ensures forall u :: Opened(u) in t ==> ClosedOnce(t, u)
  {
    forall u | Opened(u) in t ensures ClosedOnce(t, u) {
      EveryUpstreamClosedOnce(rules, t, u);
    }
  }

  /** Two authentication successes on one connection leave the first upstream
      open, with nothing left that could close it. */
  lemma SecondActivationLeaks(rules: Rules)
    ensures var t := [Opened(0), Activated(0), Opened(1), Activated(1), Closed(1)];
            Safe(rules, t) && Summarize(t).open == Summarize(t).orphans == {0}
  {
    var t := [Opened(0), Activated(0), Opened(1), Activated(1), Closed(1)];
    TwoOpened(rules, t);
    ExtendAt(rules, t, 3);
    ExtendAt(rules, t, 4);
    assert t[..5] == t;
  }

  lemma TwoOpened(rules: Rules, t: seq<Event>)
    requires |t| >= 3 && t[0] == Opened(0) && t[1] == Activated(0) && t[2] == Opened(1)
    ensures Safe(rules, t[..3])
    ensures Summarize(t[..3]) == NOTHING.(known := {0, 1}, open := {0, 1}, active := Some(0), everActive := true)
  {
    ExtendAt(rules, t, 0);
    ExtendAt(rules, t, 1);
    ExtendAt(rules, t, 2);
  }
}
