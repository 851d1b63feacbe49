/**
 One client connection from handshake to the last command: authentication,
 which brings the upstream up, and the command loop, which takes it down.
 */
module Connection {
  import opened Common
  import opened Decisions
  import opened Masking
  import opened Resultset
  import opened Trace
  import opened Forwarding
  import opened Deferred
  import opened Policy
  import Normalize

  /** What the outside answers to one attempt to authenticate: the new upstream,
      the error of selecting the kept name there, the owner of the credential,
      and whether the record was written. */
  datatype Attempt = Attempt(upstream: Option<nat>, refused: Option<Error>, owner: Option<string>, written: bool)

  /** Consuming the credential; once used it is no longer remembered. */
  function AfterConsume(t: seq<Event>, login: string, owner: Option<string>): seq<Event> {
    if owner.None? then t + [CredentialConsumed(login, None)]
    else t + [CredentialConsumed(login, owner)] + [CacheInvalidated(login)]
  }

  /** Consuming the credential and logging who it belongs to, on upstream u. */
  function AfterLogin(t: seq<Event>, u: nat, login: string, hasAuditor: bool, owner: Option<string>,
                      written: bool): seq<Event> {
    var consumed := AfterConsume(t, login, owner);
    if owner.None? then consumed + [Closed(u)]
    else if !hasAuditor then consumed
    else consumed + ThenClosed(AuthLogged(owner.value, true, written), !written, u)
  }

  /** Connecting, and activating what was connected. */
  function AfterUpstream(t: seq<Event>, closed: bool, pending: string, a: Attempt): seq<Event> {
    if a.upstream.None? then t + [ConnectFailed]
    else AfterActivation(t + [Opened(a.upstream.value)], closed, pending, a.upstream.value, a.refused)
  }

  /** Connect, replay, consume, log, in that order; the first failure takes the
      upstream down again. */
  function AfterAttempt(t: seq<Event>, closed: bool, pending: string, login: string, hasAuditor: bool,
                        a: Attempt): seq<Event> {
    var tried := AfterUpstream(t, closed, pending, a);
    if a.upstream.None? || closed || a.refused.Some? then tried
    else AfterLogin(tried, a.upstream.value, login, hasAuditor, a.owner, a.written)
  }

  function AttemptError(closed: bool, hasAuditor: bool, a: Attempt): Option<Error> {
    if a.upstream.None? then Some(Transport(0))
    else if closed then Some(Unsupported)
    else if a.refused.Some? then a.refused
    else if a.owner.None? then Some(CredentialRefused)
    else if hasAuditor && !a.written then Some(AuditFailure)
    else None
  }

  lemma MarksAfterUpstream(t: seq<Event>, closed: bool, pending: string, a: Attempt)
    ensures Marks(AfterUpstream(t, closed, pending, a)) == Marks(t)
  {
    MarksKept(t, AfterUpstream(t, closed, pending, a));
  }

  lemma MarksAfterLogin(t: seq<Event>, u: nat, login: string, hasAuditor: bool, owner: Option<string>, written: bool)
    ensures Marks(AfterLogin(t, u, login, hasAuditor, owner, written)) == Marks(t)
  {
    MarksKept(t, AfterLogin(t, u, login, hasAuditor, owner, written));
  }

  /** An attempt to authenticate leaves no mark. */
  lemma MarksAfterAttempt(t: seq<Event>, closed: bool, pending: string, login: string, hasAuditor: bool, a: Attempt)
    ensures Marks(AfterAttempt(t, closed, pending, login, hasAuditor, a)) == Marks(t)
  {
    MarksAfterUpstream(t, closed, pending, a);
    var tried := AfterUpstream(t, closed, pending, a);
    if a.upstream.Some? {
      MarksAfterLogin(tried, a.upstream.value, login, hasAuditor, a.owner, a.written);
    }
  }

  class SessionAuthenticationHandler {
    const world: World
    const session: PolicyHandler
    const requireTLS: bool
    var lastUsername: string

    constructor (world: World, session: PolicyHandler, requireTLS: bool)
      ensures this.world == world && this.session == session && this.requireTLS == requireTLS
    {
      this.world, this.session, this.requireTLS, lastUsername := world, session, requireTLS, "";
    }

    ghost predicate Valid()
      reads this, session, session.next, world, session.next.forwarding
    {
      session.world == world && session.next.world == world && session.Valid()
    }

    ghost function History(): Summary
      reads session.next, world, session.next.world
    {
      session.next.History()
    }

    /** The store's answer does not concern the session; the name is kept. */
    method GetCredential(username: string)
      modifies this`lastUsername
      ensures lastUsername == username
    {
      lastUsername := username;
    }

    /** The name that is consumed, or counted a failure of. */
    function Login(username: string): string
      reads this`lastUsername
    {
      if username == "" then lastUsername else username
    }

    /** Without the TLS it requires, an attempt ends before it starts. */
    method OnAuthSuccess(username: string, tls: bool, streams: bool) returns (err: Option<Error>, ghost a: Attempt)
      requires Valid()
      modifies session`identity, session.next`forwarding, session.next`closed, session.next`terminal, world
      ensures Valid()
      ensures requireTLS && !tls ==>
                && err == Some(InsecureTransport) && world.trace == old(world.trace)
                && session.next.forwarding == old(session.next.forwarding)
      ensures !requireTLS || tls ==>
                && world.trace == AfterAttempt(old(world.trace), old(session.next.closed), session.next.pendingDatabase,
                                               Login(username), session.hasAuditor, a)
                && err == AttemptError(old(session.next.closed), session.hasAuditor, a)
      ensures err.None? ==>
                && a.owner == Some(session.identity)
                && session.next.forwarding != null && session.next.forwarding.streams == streams
      ensures Authenticated(old(History()), old(session.next.ActiveSet()), err)
      ensures session.next.terminal == old(session.next.terminal)
      ensures || session.next.forwarding == old(session.next.forwarding)
              || session.next.forwarding == null
              || fresh(session.next.forwarding)
    {
      if requireTLS && !tls {
        return Some(InsecureTransport), Attempt(None, None, None, false);
      }
      err, a := RecordAuthSuccess(username, streams);
    }

    /** What one attempt to authenticate leaves behind. After a failure every
        upstream it opened is closed; after a success exactly one new upstream
        is open and active, the credential was consumed by this attempt, and
        later query records carry the user it was issued to. */
    ghost predicate Authenticated(before: Summary, active: set<nat>, err: Option<Error>)
      reads this, session, session.next, world, session.next.world, session.next.forwarding
    {
      var after := History();
      && before.known <= after.known && AtMostOneMore(before.known, after.known)
      && before.clientLost == after.clientLost
      && (err.Some? ==> (after.known - before.known) * after.open == {})
      && (err.None? ==>
            && session.next.forwarding != null
            && after.known == before.known + {session.next.forwarding.upstream}
            && session.next.forwarding.upstream !in before.known
            && after.consumed == Some(session.identity))
      && (after.orphans == before.orphans || after.orphans == before.orphans + active)
    }

    /** One attempt: connect, replay, consume, audit. */
    method RecordAuthSuccess(username: string, streams: bool) returns (err: Option<Error>, ghost a: Attempt)
      requires Valid()
      modifies session`identity, session.next`forwarding, session.next`closed, session.next`terminal, world
      ensures Valid()
      ensures world.trace == AfterAttempt(old(world.trace), old(session.next.closed), session.next.pendingDatabase,
                                          Login(username), session.hasAuditor, a)
      ensures err == AttemptError(old(session.next.closed), session.hasAuditor, a)
      ensures a.refused.Some? ==> session.next.pendingDatabase != ""
      ensures err.None? ==>
                && a.owner == Some(session.identity)
                && session.next.forwarding != null && session.next.forwarding.streams == streams
      ensures Authenticated(old(History()), old(session.next.ActiveSet()), err)
      ensures session.next.terminal == old(session.next.terminal)
      ensures || session.next.forwarding == old(session.next.forwarding)
              || session.next.forwarding == null
              || fresh(session.next.forwarding)
    {
      err, a := BringUp(streams);
      if err.Some? {
        return;
      }
      ghost var owner, written;
      err, owner, written := ConsumeAndAudit(username);
      a := a.(owner := owner, written := written);
    }

    /** A new upstream is connected and made the active one. */
    method BringUp(streams: bool) returns (err: Option<Error>, ghost a: Attempt)
      requires Valid()
      modifies session.next`forwarding, session.next`closed, session.next`terminal, world
      ensures Valid()
      ensures world.trace == AfterUpstream(old(world.trace), old(session.next.closed), session.next.pendingDatabase, a)
      ensures err
              == (if a.upstream.None? then Some(Transport(0)) else if old(session.next.closed) then Some(Unsupported)
                  else a.refused)
      ensures a.refused.Some? ==> !old(session.next.closed) && session.next.pendingDatabase != ""
      ensures session.next.closed == old(session.next.closed) && session.next.terminal == old(session.next.terminal)
      ensures a.upstream.Some? ==> a.upstream.value !in old(History()).known
      ensures History().known
              == old(History()).known + if a.upstream.Some? then {a.upstream.value} else {}
      ensures History().clientLost == old(History()).clientLost
      ensures History().orphans == if err.Some? then old(History()).orphans
                                   else old(History()).orphans + old(session.next.ActiveSet())
      ensures err.Some? ==>
                && session.next.forwarding == old(session.next.forwarding)
                && (a.upstream.Some? ==> a.upstream.value !in History().open)
      ensures err.None? ==>
                && a.upstream.Some? && session.next.forwarding != null && fresh(session.next.forwarding)
                && session.next.forwarding.upstream == a.upstream.value && session.next.forwarding.streams == streams
    {
      hide Safe, Summarize;
      ghost var rules := session.next.rules;
      ghost var t := world.trace;
      var upstream := world.Connect();
      a := Attempt(upstream, None, None, false);
      if upstream.None? {
        Extend(rules, t, ConnectFailed);
        return Some(Transport(0)), a;
      }
      NewUpstream(rules, t, upstream.value);
      err := session.next.Activate(upstream.value, streams);
      if !session.next.closed {
        a := a.(refused := err);
      }
    }

    method ConsumeAndAudit(username: string)
      returns (err: Option<Error>, ghost owner: Option<string>, ghost written: bool)
      requires Valid() && session.next.forwarding != null
      modifies session`identity, session.next`forwarding, session.next`closed, session.next`terminal, world`trace
      modifies session.next.forwarding
      ensures Valid()
      ensures world.trace == AfterLogin(old(world.trace), old(session.next.forwarding.upstream), Login(username),
                                        session.hasAuditor, owner, written)
      ensures err == (if owner.None? then Some(CredentialRefused)
                      else if session.hasAuditor && !written then Some(AuditFailure)
                      else None)
      ensures session.next.terminal == old(session.next.terminal)
      ensures SameUpstreams(old(History()), History())
      ensures err.Some? ==> session.next.forwarding == null
      ensures err.None? ==>
                && session.next.forwarding == old(session.next.forwarding)
                && owner == Some(session.identity) && History().consumed == owner
    {
      hide Safe, Summarize;
      var user := ConsumeAuthSuccess(username);
      owner, written := user, false;
      if user.None? {
        session.next.Close();
        return Some(CredentialRefused), owner, written;
      }
      var ok := AuditAuth(user.value, true);
      written := ok;
      if !ok {
        session.next.Close();
        return Some(AuditFailure), owner, written;
      }
      session.identity := user.value;
      return None, owner, written;
    }

    method ConsumeAuthSuccess(username: string) returns (user: Option<string>)
      requires Valid() && session.next.forwarding != null
      modifies world`trace
      ensures Valid()
      ensures History() == old(History()).(consumed := user)
      ensures world.trace
              == AfterConsume(old(world.trace), if username == "" then lastUsername else username, user)
    {
      hide Safe, Summarize;
      ghost var t := world.trace;
      var login := Login(username);
      user := world.Consume(login);
      Extend(session.next.rules, t, CredentialConsumed(login, user));
      if user.Some? {
        Extend(session.next.rules, world.trace, CacheInvalidated(login));
        world.InvalidateCache(login);
      }
    }

    /** auditAuth: an allowed authentication, once written, is what later query
        records are attributed to. */
    method AuditAuth(user: string, allowed: bool) returns (written: bool)
      requires Valid()
      requires allowed ==> session.next.forwarding != null && History().consumed == Some(user)
      modifies world`trace
      ensures session.next.Valid()
      ensures !session.hasAuditor ==>
                written && world.trace == old(world.trace) && History() == old(History())
      ensures session.hasAuditor ==>
                && world.trace == old(world.trace) + [AuthLogged(user, allowed, written)]
                && History() == if allowed && written then old(History()).(user := user) else old(History())
    {
      if !session.hasAuditor {
        return true;
      }
      ghost var t := world.trace;
      written := world.LogAuth(user, allowed);
      Extend(session.next.rules, t, AuthLogged(user, allowed, written));
    }

    /** A failed authentication is counted against its name, and logged. */
    method OnAuthFailure(username: string) returns (ghost written: bool)
      requires Valid()
      modifies world`trace
      ensures Valid() && History() == old(History())
      ensures world.trace == AfterFailure(old(world.trace), if username == "" then lastUsername else username,
                                          session.hasAuditor, written)
    {
      hide Safe, Summarize;
      ghost var t := world.trace;
      Extend(session.next.rules, t, FailureRecorded(Login(username)));
      world.RecordFailure(Login(username));
      var ok := AuditAuth("", false);
      written := ok;
    }
  }

  function AfterFailure(t: seq<Event>, login: string, hasAuditor: bool, written: bool): seq<Event> {
    if hasAuditor then t + [FailureRecorded(login)] + [AuthLogged("", false, written)]
    else t + [FailureRecorded(login)]
  }

  lemma MarksAfterFailure(t: seq<Event>, login: string, hasAuditor: bool, written: bool)
    ensures Marks(AfterFailure(t, login, hasAuditor, written)) == Marks(t)
  {
    MarksKept(t, AfterFailure(t, login, hasAuditor, written));
  }

  // ----- the handshake

  /** What the protocol library calls back for while it sets a connection up. */
  datatype Callback =
    | SelectDatabase(database: string)
    | LookUp(username: string)
    | AuthSucceeded(username: string, tls: bool, streams: bool)
    | AuthFailed(username: string)

  function AuthSuccesses(script: seq<Callback>): nat {
    if script == [] then 0
    else AuthSuccesses(script[..|script| - 1]) + if script[|script| - 1].AuthSucceeded? then 1 else 0
  }

  /** The upstreams so far are what the number of auth successes can explain, and
      the client is still there. */
  ghost predicate UpstreamsExplained(s: Summary, successes: nat) {
    && !s.clientLost
    && (successes == 0 ==> s.active == None && s.orphans == {} && s.known == {})
    && (successes == 1 ==> s.orphans == {} && AtMostOne(s.known))
  }

  function CallbackMarks(allowed: set<string>, callback: Callback): seq<Mark> {
    if callback.SelectDatabase? then NameMarks(allowed, callback.database) else []
  }

  function ScriptMarks(allowed: set<string>, script: seq<Callback>): seq<Mark> {
    if script == [] then []
    else ScriptMarks(allowed, script[..|script| - 1]) + CallbackMarks(allowed, script[|script| - 1])
  }

  /** The upstreams after a callback, which may have been an attempt to
      authenticate. */
  predicate Continues(s: Summary, r: Summary, attempt: bool) {
    && s.clientLost == r.clientLost
    && (if attempt then
          && s.known <= r.known && AtMostOneMore(s.known, r.known)
          && (r.orphans == s.orphans || r.orphans == s.orphans + if s.active.Some? then {s.active.value} else {})
        else s.known == r.known && s.orphans == r.orphans && (s.active == None ==> r.active == None))
  }

  lemma StillExplained(s: Summary, r: Summary, successes: nat, attempt: bool)
    requires UpstreamsExplained(s, successes) && Continues(s, r, attempt)
    ensures UpstreamsExplained(r, successes + if attempt then 1 else 0)
  {
  }

  lemma ScriptStep(s: Summary, r: Summary, t: seq<Event>, u: seq<Event>, w: seq<Event>, allowed: set<string>,
                   script: seq<Callback>, n: nat)
    requires n < |script|
    requires UpstreamsExplained(s, AuthSuccesses(script[..n])) && Continues(s, r, script[n].AuthSucceeded?)
    requires MarksGrew(t, u, ScriptMarks(allowed, script[..n]))
    requires MarksGrew(u, w, CallbackMarks(allowed, script[n]))
    ensures UpstreamsExplained(r, AuthSuccesses(script[..n + 1]))
    ensures AuthSuccesses(script[..n + 1]) == AuthSuccesses(script[..n]) + if script[n].AuthSucceeded? then 1 else 0
    ensures MarksGrew(t, w, ScriptMarks(allowed, script[..n + 1]))
  {
    assert script[..n + 1][..n] == script[..n];
    StillExplained(s, r, AuthSuccesses(script[..n]), script[n].AuthSucceeded?);
    MarksGrewFurther(t, u, w, ScriptMarks(allowed, script[..n]), CallbackMarks(allowed, script[n]));
  }

  /** One callback; an error ends the handshake. */
  method Answer(auth: SessionAuthenticationHandler, callback: Callback)
    returns (err: Option<Error>, ghost a: Attempt)
    requires auth.Valid()
    modifies auth`lastUsername, auth.session`identity, auth.session.next, auth.world, auth.session.next.ActiveHandler()
    ensures auth.Valid()
    ensures MarksGrew(old(auth.world.trace), auth.world.trace, CallbackMarks(auth.session.allowedSchemas, callback))
    ensures auth.lastUsername == if callback.LookUp? then callback.username else old(auth.lastUsername)
    ensures callback.SelectDatabase? ==>
              && auth.world.trace == AfterName(old(auth.world.trace), auth.session.allowedSchemas, callback.database,
                                               old(auth.session.Active()), err)
              && (callback.database !in auth.session.allowedSchemas ==> err == Some(PolicyDenied))
              && (callback.database in auth.session.allowedSchemas && old(auth.session.next.forwarding) == null ==>
                    err == if old(auth.session.next.closed) then Some(Unsupported) else None)
    ensures callback.LookUp? ==> err == None && auth.world.trace == old(auth.world.trace)
    ensures callback.AuthSucceeded? && auth.requireTLS && !callback.tls ==>
              err == Some(InsecureTransport) && auth.world.trace == old(auth.world.trace)
    ensures callback.AuthSucceeded? && (!auth.requireTLS || callback.tls) ==>
              && auth.world.trace == AfterAttempt(old(auth.world.trace), old(auth.session.next.closed),
                                                  auth.session.next.pendingDatabase, auth.Login(callback.username),
                                                  auth.session.hasAuditor, a)
              && err == AttemptError(old(auth.session.next.closed), auth.session.hasAuditor, a)
              && (err.None? ==> a.owner == Some(auth.session.identity))
    ensures callback.AuthFailed? ==>
              && err == Some(CredentialRefused)
              && auth.world.trace == AfterFailure(old(auth.world.trace), auth.Login(callback.username),
                                                  auth.session.hasAuditor, a.written)
    ensures old(auth.session.next.forwarding) == null && !callback.AuthSucceeded? ==>
              auth.session.next.forwarding == null && auth.session.next.closed == old(auth.session.next.closed)
    ensures || auth.session.next.forwarding == old(auth.session.next.forwarding)
            || auth.session.next.forwarding == null
            || fresh(auth.session.next.forwarding)
    ensures err.None? ==> auth.session.next.terminal == old(auth.session.next.terminal)
    ensures Continues(old(auth.History()), auth.History(), callback.AuthSucceeded?)
  {
    hide Marks, Safe, Summarize;
    ghost var t := auth.world.trace;
    a := Attempt(None, None, None, false);
    match callback
    case SelectDatabase(database) =>
      ghost var active := auth.session.Active();
      err := auth.session.UseDB(database);
      MarksAfterName(t, auth.session.allowedSchemas, database, active, err);
    case LookUp(username) =>
      auth.GetCredential(username);
      err := None;
    case AuthSucceeded(username, tls, streams) =>
      err, a := auth.OnAuthSuccess(username, tls, streams);
      MarksAfterAttempt(t, old(auth.session.next.closed), auth.session.next.pendingDatabase, auth.Login(username),
                        auth.session.hasAuditor, a);
    case AuthFailed(username) =>
      ghost var written := auth.OnAuthFailure(username);
      a := a.(written := written);
      MarksAfterFailure(t, auth.Login(username), auth.session.hasAuditor, written);
      err := Some(CredentialRefused);
  }

  /** A handshake may fail at its last callback: a lookup never does, and a name
      that is allowed only when there was an attempt to authenticate before. */
  predicate MayFail(allowed: set<string>, script: seq<Callback>) {
    && script != []
    && match script[|script| - 1]
       case SelectDatabase(database) => database !in allowed || AuthSuccesses(script) > 0
       case LookUp(_) => false
       case AuthSucceeded(_, _, _) => true
       case AuthFailed(_) => true
  }

  /** A message to or from the client. */
  method Exchange(session: PolicyHandler) returns (err: Option<Error>)
    requires session.Valid()
    modifies session.world`trace
    ensures session.Valid()
    ensures session.world.trace == AfterExchange(old(session.world.trace), err)
    ensures session.next.History()
            == old(session.next.History()).(clientLost := old(session.next.History().clientLost) || err.Some?)
    ensures Marks(session.world.trace) == Marks(old(session.world.trace))
  {
    hide Marks, Safe, Summarize;
    ghost var t := session.world.trace;
    Extend(session.next.rules, t, ClientLost);
    MarksExtend(t, ClientLost);
    err := session.world.Exchange();
  }

  /** NewConn: the callbacks in any order, then possibly a network failure. */
  method NewConn(auth: SessionAuthenticationHandler, script: seq<Callback>)
    returns (err: Option<Error>, answered: nat)
    requires auth.Valid() && auth.session.next.forwarding == null && !auth.session.next.closed
    requires UpstreamsExplained(auth.History(), 0) && auth.session.next.terminal == None
    modifies auth`lastUsername, auth.session`identity, auth.session.next, auth.world
    ensures auth.Valid()
    ensures answered <= |script|
    ensures MarksGrew(old(auth.world.trace), auth.world.trace,
                      ScriptMarks(auth.session.allowedSchemas, script[..answered]))
    ensures err.None? ==> answered == |script| && !auth.History().clientLost && auth.session.next.terminal == None
    ensures err.Some? ==> auth.History().clientLost || MayFail(auth.session.allowedSchemas, script[..answered])
    ensures AuthSuccesses(script) <= 1 ==> auth.History().orphans == {} && AtMostOne(auth.History().known)
    ensures auth.session.next.forwarding == null || fresh(auth.session.next.forwarding)
  {
    hide Marks, Safe, Summarize;
    err, answered := AnswerAll(auth, script);
    MoreSuccesses(script, answered);
    if err.None? {
      err := Exchange(auth.session);
    }
  }

  /** The callbacks, up to one that fails. */
  method AnswerAll(auth: SessionAuthenticationHandler, script: seq<Callback>)
    returns (err: Option<Error>, answered: nat)
    requires auth.Valid() && auth.session.next.forwarding == null && !auth.session.next.closed
    requires UpstreamsExplained(auth.History(), 0) && auth.session.next.terminal == None
    modifies auth`lastUsername, auth.session`identity, auth.session.next, auth.world
    ensures auth.Valid()
    ensures answered <= |script|
    ensures MarksGrew(old(auth.world.trace), auth.world.trace,
                      ScriptMarks(auth.session.allowedSchemas, script[..answered]))
    ensures err.None? ==> answered == |script| && auth.session.next.terminal == None
    ensures err.Some? ==> MayFail(auth.session.allowedSchemas, script[..answered])
    ensures UpstreamsExplained(auth.History(), AuthSuccesses(script[..answered]))
    ensures auth.session.next.forwarding == null || fresh(auth.session.next.forwarding)
  {
    hide Marks, Safe, Summarize;
    answered, err := 0, None;
    ghost var allowed, t := auth.session.allowedSchemas, auth.world.trace;
    while answered < |script| && err.None?
      invariant 0 <= answered <= |script|
      invariant auth.Valid()
      invariant err.None? ==> auth.session.next.terminal == None
      invariant err.Some? ==> MayFail(allowed, script[..answered])
      invariant UpstreamsExplained(auth.History(), AuthSuccesses(script[..answered]))
      invariant err.None? && AuthSuccesses(script[..answered]) == 0 ==>
                  auth.session.next.forwarding == null && !auth.session.next.closed
      invariant MarksGrew(t, auth.world.trace, ScriptMarks(allowed, script[..answered]))
      invariant auth.session.next.forwarding == null || fresh(auth.session.next.forwarding)
      decreases |script| - answered
    {
      ghost var before, u, a := auth.History(), auth.world.trace, Attempt(None, None, None, false);
      err, a := Answer(auth, script[answered]);
      ScriptStep(before, auth.History(), t, u, auth.world.trace, allowed, script, answered);
      answered := answered + 1;
    }
    assert answered == |script| ==> script[..answered] == script;
  }

  lemma {:induction false} MoreSuccesses(script: seq<Callback>, n: nat)
    requires n <= |script|
    ensures AuthSuccesses(script[..n]) <= AuthSuccesses(script)
  {
    if n == |script| {
      assert script[..n] == script;
    } else {
      MoreSuccesses(script[..|script| - 1], n);
      assert script[..|script| - 1][..n] == script[..n];
    }
  }

  // ----- the command loop

  datatype Command = InitDB(database: string) | RunQuery(query: string) | Quit | OtherCommand

  /** The marks a command leaves: its own, the name when it selects an allowed
      one, the normal form of its statement when queries are logged. */
  function CommandMarks(allowed: set<string>, hasAuditor: bool, command: Command): seq<Mark> {
    [Mark.Command]
    + match command
      case InitDB(database) => NameMarks(allowed, database)
      case RunQuery(query) => if hasAuditor then [Statement(Normalize.Logged(query))] else []
      case _ => []
  }

  function CommandsMarks(allowed: set<string>, hasAuditor: bool, commands: seq<Command>): seq<Mark> {
    if commands == [] then []
    else
      CommandsMarks(allowed, hasAuditor, commands[..|commands| - 1])
      + CommandMarks(allowed, hasAuditor, commands[|commands| - 1])
  }

  lemma CommandsMarksStep(t: seq<Event>, u: seq<Event>, w: seq<Event>, allowed: set<string>, hasAuditor: bool,
                          commands: seq<Command>, n: nat)
    requires n < |commands| && MarksGrew(t, u, CommandsMarks(allowed, hasAuditor, commands[..n]))
    requires MarksGrew(u, w, CommandMarks(allowed, hasAuditor, commands[n]))
    ensures MarksGrew(t, w, CommandsMarks(allowed, hasAuditor, commands[..n + 1]))
  {
    assert commands[..n + 1][..n] == commands[..n];
    MarksGrewFurther(t, u, w, CommandsMarks(allowed, hasAuditor, commands[..n]),
                     CommandMarks(allowed, hasAuditor, commands[n]));
  }

  /** The command is passed to its handler, whose answer is sent to the client. */
  method Dispatch(session: PolicyHandler, command: Command)
    returns (result: Result?, failure: Option<Error>, ghost at: nat, ghost written: bool, ghost answer: Option<Answer>)
    requires session.Valid() && session.next.terminal == None && !session.next.History().clientLost
    modifies session.next, session.world`trace, session.next.ActiveHandler()
    ensures session.Valid()
    ensures command.RunQuery? ==>
              session.Handled(command.query, old(session.next.MaskedFieldCount()), old(session.Active()),
                              old(session.world.trace) + [CommandStarted], session.world.trace, at, written, answer,
                              failure, Given(result))
    ensures command.InitDB? ==>
              session.world.trace == AfterName(old(session.world.trace) + [CommandStarted], session.allowedSchemas,
                                               command.database, old(session.Active()), failure)
    ensures command.Quit? || command.OtherCommand? ==>
              session.world.trace == old(session.world.trace) + [CommandStarted]
    ensures MarksGrew(old(session.world.trace), session.world.trace,
                      CommandMarks(session.allowedSchemas, session.hasAuditor, command))
    ensures session.next.forwarding == old(session.next.forwarding) || session.next.forwarding == null
    ensures SameUpstreams(old(session.next.History()), session.next.History())
  {
    hide Marks, Safe, Summarize;
    ghost var t, active := session.world.trace, session.Active();
    ghost var started := t + [CommandStarted];
    session.next.StartCommand();
    MarksExtend(t, CommandStarted);
    result, failure, at, written, answer := null, None, 0, true, None;
    ghost var added := [];
    match command {
      case InitDB(database) =>
        failure := session.UseDB(database);
        MarksAfterName(started, session.allowedSchemas, database, active, failure);
        added := NameMarks(session.allowedSchemas, database);
      case RunQuery(query) =>
        result, failure, at, written, answer := session.HandleQuery(query);
        session.HandledMarks(query, old(session.next.MaskedFieldCount()), active, started, session.world.trace, at,
                             written, answer, failure, Given(result));
        added := if session.hasAuditor then [Statement(Normalize.Logged(query))] else [];
      case Quit =>
      case OtherCommand =>
    }
    MarksGrewFurther(t, started, session.world.trace, [Mark.Command], added);
  }

  /** One command from the client: the history to `done`, and then what became of
      sending the answer. Errors of the handlers are sent to the client; only a
      network failure is an error here. */
  method HandleCommand(session: PolicyHandler, command: Command)
    returns (result: Result?, failure: Option<Error>, err: Option<Error>, quit: bool, ghost done: seq<Event>,
             ghost at: nat, ghost written: bool, ghost answer: Option<Answer>)
    requires session.Valid() && session.next.terminal == None && !session.next.History().clientLost
    modifies session.next, session.world`trace, session.next.ActiveHandler()
    ensures session.Valid()
    ensures session.world.trace == AfterExchange(done, err)
    ensures command.RunQuery? ==>
              session.Handled(command.query, old(session.next.MaskedFieldCount()), old(session.Active()),
                              old(session.world.trace) + [CommandStarted], done, at, written, answer, failure,
                              Given(result))
    ensures command.InitDB? ==>
              done == AfterName(old(session.world.trace) + [CommandStarted], session.allowedSchemas, command.database,
                                old(session.Active()), failure)
    ensures command.Quit? || command.OtherCommand? ==> done == old(session.world.trace) + [CommandStarted]
    ensures MarksGrew(old(session.world.trace), session.world.trace,
                      CommandMarks(session.allowedSchemas, session.hasAuditor, command))
    ensures quit <==> command == Quit
    ensures session.next.forwarding == old(session.next.forwarding) || session.next.forwarding == null
    ensures session.next.History().known == old(session.next.History().known)
    ensures session.next.History().orphans == old(session.next.History().orphans)
    ensures session.next.History().clientLost <==> err.Some?
  {
    hide Marks, Safe, Summarize;
    result, failure, at, written, answer := Dispatch(session, command);
    done := session.world.trace;
    err := Exchange(session);
    quit := command.Quit?;
  }

  /** newClientSession: the handlers of one connection, wired together. */
  method NewClientSession(classify: string -> Decision, allowedSchemas: set<string>, lib: Library,
                          masker: Option<Index>,
                          limits: Limits, requireTLS: bool, hasAuditor: bool)
    returns (auth: SessionAuthenticationHandler)
    ensures fresh(auth) && fresh(auth.session) && fresh(auth.session.next) && fresh(auth.world)
    ensures auth.Valid() && auth.world.trace == []
    ensures auth.session.next.forwarding == null && auth.session.next.terminal == None && !auth.session.next.closed
    ensures auth.session.next.rules == Rules(classify, allowedSchemas, limits.maxQueryBytes)
    ensures auth.requireTLS == requireTLS && auth.session.hasAuditor == hasAuditor
    ensures auth.session.classify == classify && auth.session.allowedSchemas == allowedSchemas
    ensures auth.session.next.lib == lib && auth.session.next.masker == masker
    ensures auth.session.limits == auth.session.next.limits == limits
  {
    var world := new World();
    var deferred := new DeferredForwardingHandler(world, lib, masker, limits,
                                                  Rules(classify, allowedSchemas, limits.maxQueryBytes));
    var session := new PolicyHandler(world, classify, allowedSchemas, limits, hasAuditor, deferred);
    auth := new SessionAuthenticationHandler(world, session, requireTLS);
  }

  /** ServeConn, from an accepted connection to its return. However the
      handshake, the commands, the upstream and the audit log behave, the
      history is safe and nothing is left open but replaced upstreams; with at
      most one authentication success there are none, every upstream that was
      opened has been closed exactly once, and every database selected upstream
      is the name accepted last. Each callback answered and each command handled
      leaves its marks, in order, and no others are left; and there are reasons
      for going no further. */
  method ServeConn(hasProtocolServer: bool, classify: string -> Decision, allowedSchemas: set<string>, lib: Library,
                   masker: Option<Index>, limits: Limits, requireTLS: bool, hasAuditor: bool,
                   handshake: seq<Callback>, commands: seq<Command>)
    returns (world: World, clientClosed: bool, answered: nat, handled: nat, ghost rules: Rules)
    ensures rules == Rules(classify, allowedSchemas, limits.maxQueryBytes)
    ensures Safe(rules, world.trace)
    ensures Summarize(world.trace).open == Summarize(world.trace).orphans
    ensures answered <= |handshake| && handled <= |commands|
    ensures Marks(world.trace)
            == ScriptMarks(allowedSchemas, handshake[..answered])
               + CommandsMarks(allowedSchemas, hasAuditor, commands[..handled])
    ensures !hasProtocolServer ==> world.trace == []
    ensures hasProtocolServer ==> Finished(allowedSchemas, handshake, answered, commands, handled,
                                           Summarize(world.trace))
    ensures AuthSuccesses(handshake) <= 1 ==>
              forall u :: Opened(u) in world.trace ==> ClosedOnce(world.trace, u)
    ensures AuthSuccesses(handshake) <= 1 ==>
              forall j :: 0 <= j < |world.trace| && world.trace[j].UsedDB? ==>
                LastAccepted(world.trace, j, world.trace[j].database)
    ensures clientClosed <==> !ByQuitting(commands, handled, Summarize(world.trace))
    ensures NoneAfterQuit(commands, handled)
  {
    rules := Rules(classify, allowedSchemas, limits.maxQueryBytes);
    clientClosed, answered, handled := false, 0, 0;
    if !hasProtocolServer {
      world := new World();
      clientClosed := true;
      return;
    }
    var auth := NewClientSession(classify, allowedSchemas, lib, masker, limits, requireTLS, hasAuditor);
    world := auth.world;
    clientClosed, answered, handled := Serve(auth, handshake, commands);
    if AuthSuccesses(handshake) <= 1 {
      AllClosedOnce(rules, world.trace);
      AllSelectionsAreLast(rules, world.trace);
    }
  }

  /** Why a connection was served no further: the client could not be reached,
      the session ended, the client quit or had nothing more to say, or, before
      the first command, the handshake failed. */
  predicate Finished(allowed: set<string>, handshake: seq<Callback>, answered: nat, commands: seq<Command>,
                     handled: nat, s: Summary)
    requires answered <= |handshake| && handled <= |commands|
  {
    || s.clientLost
    || (handled == 0 && MayFail(allowed, handshake[..answered]))
    || (answered == |handshake| && (s.finished || Ended(commands, handled)))
  }

  /** None of the commands before the n-th was Quit. */
  predicate NoneAfterQuit(commands: seq<Command>, n: nat) {
    forall k :: 0 <= k < n - 1 && k < |commands| ==> commands[k] != Quit
  }

  /** The client quit, and was there to the end. */
  predicate ByQuitting(commands: seq<Command>, handled: nat, s: Summary)
    requires handled <= |commands|
  {
    0 < handled && commands[handled - 1] == Quit && !s.clientLost && !s.finished
  }

  /** The client quit with the last command handled, or has sent no others. */
  predicate Ended(commands: seq<Command>, handled: nat)
    requires handled <= |commands|
  {
    handled == |commands| || (0 < handled && commands[handled - 1] == Quit)
  }

  method Serve(auth: SessionAuthenticationHandler, handshake: seq<Callback>, commands: seq<Command>)
    returns (clientClosed: bool, answered: nat, handled: nat)
    requires auth.Valid() && auth.world.trace == []
    requires auth.session.next.forwarding == null && auth.session.next.terminal == None && !auth.session.next.closed
    modifies auth`lastUsername, auth.session`identity, auth.session.next, auth.world
    ensures auth.Valid() && auth.session.next.forwarding == null
    ensures answered <= |handshake| && handled <= |commands|
    ensures Marks(auth.world.trace)
            == ScriptMarks(auth.session.allowedSchemas, handshake[..answered])
               + CommandsMarks(auth.session.allowedSchemas, auth.session.hasAuditor, commands[..handled])
    ensures Finished(auth.session.allowedSchemas, handshake, answered, commands, handled, auth.History())
    ensures AuthSuccesses(handshake) <= 1 ==> auth.History().orphans == {} && AtMostOne(auth.History().known)
    ensures clientClosed <==> !ByQuitting(commands, handled, auth.History())
    ensures NoneAfterQuit(commands, handled)
  {
    clientClosed, handled := true, 0;
    var err;
    err, answered := NewConn(auth, handshake);
    ghost var t := auth.world.trace;
    if err.Some? {
      Leave(auth.session);
    } else {
      clientClosed, handled := CommandLoop(auth.session, commands);
    }
    ghost var allowed, hasAuditor := auth.session.allowedSchemas, auth.session.hasAuditor;
    assert commands[..0] == [];
    MarksGrewFurther([], t, auth.world.trace, ScriptMarks(allowed, handshake[..answered]),
                     CommandsMarks(allowed, hasAuditor, commands[..handled]));
  }

  /** The loop of ServeConn, and the end of the session. */
  method CommandLoop(session: PolicyHandler, commands: seq<Command>) returns (clientClosed: bool, handled: nat)
    requires session.Valid() && session.next.terminal == None && !session.next.History().clientLost
    modifies session.next, session.world`trace, session.next.ActiveHandler()
    ensures session.Valid()
    ensures session.next.forwarding == null
    ensures session.next.History().known == old(session.next.History().known)
    ensures session.next.History().orphans == old(session.next.History().orphans)
    ensures handled <= |commands|
    ensures MarksGrew(old(session.world.trace), session.world.trace,
                      CommandsMarks(session.allowedSchemas, session.hasAuditor, commands[..handled]))
    ensures session.next.History().clientLost || session.next.terminal.Some? || Ended(commands, handled)
    ensures clientClosed <==> !ByQuitting(commands, handled, session.next.History())
    ensures NoneAfterQuit(commands, handled)
  {
    clientClosed, handled := HandleAll(session, commands);
    Leave(session);
  }

  /** One round of the loop: whether it is the last, and whether the client
      connection is to be closed then. */
  method HandleNext(session: PolicyHandler, command: Command) returns (last: bool, closes: bool)
    requires session.Valid() && session.next.terminal == None && !session.next.History().clientLost
    modifies session.next, session.world`trace, session.next.ActiveHandler()
    ensures session.Valid()
    ensures session.next.forwarding == old(session.next.forwarding) || session.next.forwarding == null
    ensures session.next.History().known == old(session.next.History().known)
    ensures session.next.History().orphans == old(session.next.History().orphans)
    ensures MarksGrew(old(session.world.trace), session.world.trace,
                      CommandMarks(session.allowedSchemas, session.hasAuditor, command))
    ensures last <==> session.next.History().clientLost || session.next.terminal.Some? || command == Quit
    ensures closes <==> session.next.History().clientLost || session.next.terminal.Some?
  {
    hide Marks, Safe, Summarize;
    ghost var done, at, written, answer := [], 0, false, None;
    var result, failure, err, quit;
    result, failure, err, quit, done, at, written, answer := HandleCommand(session, command);
    if err.Some? {
      return true, true;
    }
    if session.next.terminal.Some? {
      return true, true;
    }
    return quit, false;
  }

  /** The commands, up to one after which none is handled. When the client sends
      nothing more, reading the next command fails. */
  method HandleAll(session: PolicyHandler, commands: seq<Command>) returns (clientClosed: bool, handled: nat)
    requires session.Valid() && session.next.terminal == None && !session.next.History().clientLost
    modifies session.next, session.world`trace, session.next.ActiveHandler()
    ensures session.Valid()
    ensures session.next.forwarding == old(session.next.forwarding) || session.next.forwarding == null
    ensures session.next.History().known == old(session.next.History().known)
    ensures session.next.History().orphans == old(session.next.History().orphans)
    ensures handled <= |commands|
    ensures MarksGrew(old(session.world.trace), session.world.trace,
                      CommandsMarks(session.allowedSchemas, session.hasAuditor, commands[..handled]))
    ensures session.next.History().clientLost || session.next.terminal.Some? || Ended(commands, handled)
    ensures clientClosed <==> !ByQuitting(commands, handled, session.next.History())
    ensures NoneAfterQuit(commands, handled)
  {
    hide Marks, Safe, Summarize;
    handled := 0;
    ghost var t, allowed, hasAuditor := session.world.trace, session.allowedSchemas, session.hasAuditor;
    ghost var s, active := session.next.History(), session.next.forwarding;
    while handled < |commands|
      invariant handled <= |commands| && NoneAfterQuit(commands, handled + 1)
      invariant session.Valid() && session.next.terminal == None && !session.next.History().clientLost
      invariant session.next.forwarding == active || session.next.forwarding == null
      invariant SameUpstreams(s, session.next.History())
      invariant MarksGrew(t, session.world.trace, CommandsMarks(allowed, hasAuditor, commands[..handled]))
    {
      ghost var u := session.world.trace;
      var last;
      last, clientClosed := HandleNext(session, commands[handled]);
      CommandsMarksStep(t, u, session.world.trace, allowed, hasAuditor, commands, handled);
      handled := handled + 1;
      if last {
        return;
      }
    }
    clientClosed := true;
  }

  /** The end of the session. */
  method Leave(session: PolicyHandler)
    requires session.Valid()
    modifies session.next, session.world`trace, session.next.ActiveHandler()
    ensures session.Valid()
    ensures session.next.forwarding == null && session.next.terminal == old(session.next.terminal)
    ensures SameUpstreams(old(session.next.History()), session.next.History())
    ensures Marks(session.world.trace) == Marks(old(session.world.trace))
  {
    hide Marks, Safe, Summarize;
    ghost var t, active := session.world.trace, session.Active();
    if active.Some? {
      MarksExtend(t, Closed(active.value));
    }
    session.next.Close();
  }
}
