/**
 The forwarding side of a session before, while and after it has an upstream:
 inactive, active, and closed for good.
 */
module Deferred {
  import opened Common
  import opened Decisions
  import opened Masking
  import opened Resultset
  import opened Trace
  import opened Forwarding

  /** What follows when the upstream `u` is to become active and `pending` is the
      name kept for it: nothing but its close when the session is closed, and
      otherwise the kept name's selection, which activation needs to succeed. */
  function AfterActivation(t: seq<Event>, closed: bool, pending: string, u: nat, refused: Option<Error>): seq<Event> {
    if closed then t + [Closed(u)]
    else if pending == "" then t + [Activated(u)]
    else if refused.Some? then t + ThenClosed(UsedDB(u, pending, refused), true, u)
    else t + ThenClosed(UsedDB(u, pending, None), false, u) + [Activated(u)]
  }

  /** Selects a database on a fresh upstream, and closes it when that fails. */
  method SelectOrClose(handler: ForwardingHandler, database: string) returns (err: Option<Error>)
    requires !handler.closed && handler.terminal == None
    modifies handler`closed, handler`terminal, handler.world`trace
    ensures err.None? ==> !handler.closed && handler.terminal == None
    ensures handler.world.trace
            == old(handler.world.trace)
               + ThenClosed(UsedDB(handler.upstream, database, err), err.Some?, handler.upstream)
  {
    ghost var t := handler.world.trace;
    err := handler.UseDB(database);
    if err.Some? {
      ClosedLater(t, UsedDB(handler.upstream, database, err), handler.upstream);
      handler.Close();
    }
  }

  class DeferredForwardingHandler {
    const world: World
    const lib: Library
    const masker: Option<Index>
    const limits: Limits
    ghost const rules: Rules
    var pendingDatabase: string
    var decision: Decision
    var forwarding: ForwardingHandler?
    var closed: bool
    var terminal: Option<Error>

    constructor (world: World, lib: Library, masker: Option<Index>, limits: Limits, ghost rules: Rules)
      requires world.trace == []
      ensures this.world == world && this.lib == lib && this.masker == masker
      ensures this.limits == limits && this.rules == rules
      ensures Valid() && forwarding == null && !closed && terminal == None
    {
      this.world, this.lib, this.masker, this.limits, this.rules := world, lib, masker, limits, rules;
      pendingDatabase, decision := "", Decision(Reject, []);
      forwarding, closed, terminal := null, false, None;
    }

    ghost function ActiveHandler(): set<object>
      reads this
    {
      if forwarding == null then {} else {forwarding}
    }

    ghost function ActiveSet(): set<nat>
      reads this
    {
      if forwarding == null then {} else {forwarding.upstream}
    }

    ghost function History(): Summary
      reads this, world
    {
      Summarize(world.trace)
    }

    /** The handler's fields and the history of the session agree. */
    ghost predicate Linked()
      reads this, world, forwarding
    {
      var s := History();
      && world.Valid()
      && Safe(rules, world.trace)
      && s.active == (if forwarding == null then None else Some(forwarding.upstream))
      && (forwarding != null ==>
            && !closed
            && forwarding.world == world && forwarding.lib == lib
            && forwarding.masker == masker && forwarding.limits == limits
            && forwarding.decision == decision
            && !forwarding.closed && forwarding.terminal == None
            && forwarding.upstream in s.open && forwarding.upstream !in s.orphans)
      && (!closed ==> terminal == None && (s.everActive <==> forwarding != null))
      && (s.finished <==> terminal.Some?)
    }

    /** The name kept for replay is the last one accepted before activation. */
    ghost predicate Parked()
      reads this, world
    {
      !closed ==>
        && (pendingDatabase != "" ==>
              History().parked == Some(pendingDatabase) && pendingDatabase in rules.allowedSchemas)
        && (History().parked.Some? ==> History().parked.value == pendingDatabase)
    }

    /** No upstream but the active one, the orphans and `extra` is open. */
    ghost predicate OpenOnly(extra: set<nat>)
      reads this, world
    {
      History().open == ActiveSet() + History().orphans + extra
    }

    ghost predicate FailsClosed()
      reads this, world
    {
      History().logLost ==> closed
    }

    ghost predicate Valid()
      reads this, world, forwarding
    {
      Linked() && Parked() && OpenOnly({}) && FailsClosed()
    }

    /** Takes ownership of an open upstream. On every failure the upstream is
        closed; success replaces, and orphans, an upstream that was active. */
    method Activate(upstream: nat, streams: bool) returns (err: Option<Error>)
      requires Linked() && Parked() && OpenOnly({upstream}) && FailsClosed()
      requires upstream in History().open && upstream !in ActiveSet() + History().orphans
      modifies this`forwarding, world`trace
      ensures Valid()
      ensures err.Some? ==>
                forwarding == old(forwarding) && History() == old(History().(open := History().open - {upstream}))
      ensures err.None? ==> forwarding != null && fresh(forwarding)
      ensures err.None? ==> forwarding.upstream == upstream && forwarding.streams == streams
      ensures old(closed) ==> err == Some(Unsupported)
      ensures !old(closed) && pendingDatabase == "" ==> err == None
      ensures world.trace == AfterActivation(old(world.trace), old(closed), pendingDatabase, upstream, err)
      ensures err.None? ==>
                History().(selected := old(History()).selected)
                == old(History().(active := Some(upstream), everActive := true,
                                  orphans := History().orphans + ActiveSet()))
    {
      if closed {
        Extend(rules, world.trace, Closed(upstream));
        world.CloseUpstream(upstream);
        return Some(Unsupported);
      }
      var handler := new ForwardingHandler(world, upstream, streams, lib, masker, limits, decision);
      if pendingDatabase != "" {
        err := Replay(handler);
        if err.Some? {
          return;
        }
      }
      err := None;
      Install(handler);
    }

    /** The new upstream becomes the active one. */
    method Install(handler: ForwardingHandler)
      requires Linked() && Parked() && OpenOnly({handler.upstream}) && FailsClosed() && !closed
      requires handler.world == world && handler.lib == lib && handler.masker == masker && handler.limits == limits
      requires handler.decision == decision && !handler.closed && handler.terminal == None
      requires pendingDatabase != "" ==> (handler.upstream, pendingDatabase) in History().selected
      requires handler.upstream in History().open && handler.upstream !in ActiveSet() + History().orphans
      modifies this`forwarding, world`trace
      ensures Valid() && forwarding == handler
      ensures world.trace == old(world.trace) + [Activated(handler.upstream)]
      ensures History()
              == old(History().(active := Some(handler.upstream), everActive := true,
                                orphans := History().orphans + ActiveSet()))
    {
      Extend(rules, world.trace, Activated(handler.upstream));
      world.Note(Activated(handler.upstream));
      forwarding := handler;
    }

    /** Selects the kept database on an upstream about to become active; when
        that fails, for whatever reason, the upstream is closed. */
    method Replay(handler: ForwardingHandler) returns (err: Option<Error>)
      requires Linked() && Parked() && OpenOnly({handler.upstream}) && FailsClosed() && !closed && pendingDatabase != ""
      requires handler.world == world && !handler.closed && handler.terminal == None && handler != forwarding
      requires handler.upstream in History().open && handler.upstream !in ActiveSet() + History().orphans
      modifies handler`closed, handler`terminal, world`trace
      ensures err.None? ==>
                && !handler.closed && handler.terminal == None && Linked()
                && History() == old(History().(selected := History().selected + {(handler.upstream, pendingDatabase)}))
      ensures world.trace
              == old(world.trace)
                 + ThenClosed(UsedDB(handler.upstream, pendingDatabase, err), err.Some?, handler.upstream)
      ensures err.Some? ==> Valid() && History() == old(History().(open := History().open - {handler.upstream}))
    {
      hide Safe, Summarize;
      ghost var t := world.trace;
      err := SelectOrClose(handler, pendingDatabase);
      SelectionOnNew(rules, t, UsedDB(handler.upstream, pendingDatabase, err), err.Some?);
    }

    method Deactivate(err: Option<Error>)
      modifies this`forwarding, this`closed, this`terminal, world`trace
      ensures forwarding == null && closed
      ensures terminal == if old(terminal).None? then err else old(terminal)
      ensures world.trace
              == if old(terminal).None? && err.Some? then old(world.trace) + [BecameTerminal(err.value)]
                 else old(world.trace)
    {
      forwarding := null;
      closed := true;
      if terminal.None? {
        terminal := err;
        if err.Some? {
          world.Note(BecameTerminal(err.value));
        }
      }
    }

    /** Before activation this leaves the handler open. */
    method Close()
      requires Linked() && Parked() && OpenOnly({}) && FailsClosed()
      modifies this`forwarding, this`closed, this`terminal, world`trace, ActiveHandler()
      ensures Valid()
      ensures forwarding == null && terminal == old(terminal)
      ensures closed <==> old(closed) || old(forwarding) != null
      ensures world.trace
              == if old(forwarding) == null then old(world.trace)
                 else old(world.trace) + [Closed(old(forwarding).upstream)]
      ensures History() == old(History().(open := History().open - ActiveSet(), active := None))
    {
      if forwarding == null {
        return;
      }
      var active := forwarding;
      Deactivate(None);
      Extend(rules, world.trace, Closed(active.upstream));
      active.Close();
    }

    /** Closes the session for good with the given cause, unless it already has one. */
    method CloseTerminal(err: Error)
      requires Linked() && Parked() && OpenOnly({})
      modifies this`forwarding, this`closed, this`terminal, world`trace, ActiveHandler()
      ensures Valid()
      ensures forwarding == null && closed
      ensures terminal == if old(terminal).None? then Some(err) else old(terminal)
      ensures old(forwarding) != null ==>
                world.trace == old(world.trace) + ThenClosed(BecameTerminal(err), true, old(forwarding).upstream)
      ensures old(forwarding) == null ==>
                world.trace
                == if old(terminal).None? then old(world.trace) + [BecameTerminal(err)] else old(world.trace)
      ensures SameUpstreams(old(History()), History()) && History().user == old(History().user)
    {
      hide Safe, Summarize;
      if forwarding == null {
        Extend(rules, world.trace, BecameTerminal(err));
        Deactivate(Some(err));
        return;
      }
      var active := forwarding;
      ghost var t, s := world.trace, History();
      SessionIsEnded(rules, t, err, active.upstream);
      Deactivate(Some(err));
      active.Close();
      assert world.trace == t + ThenClosed(BecameTerminal(err), true, active.upstream);
      assert History() == s.(open := s.open - {active.upstream}, active := None, finished := true);
    }

    /** Before activation the name is kept for replay; afterwards it goes to the
        upstream, and an error that is not a MySQL error ends the session. */
    method UseDB(database: string) returns (err: Option<Error>)
      requires Linked() && OpenOnly({}) && FailsClosed()
      requires History().name == Some(database) && database in rules.allowedSchemas
      requires if History().everActive then Parked() else History().parked == Some(database)
      modifies this`pendingDatabase, this`forwarding, this`closed, this`terminal, world`trace, ActiveHandler()
      ensures Valid()
      ensures old(forwarding) == null ==>
                && forwarding == null && closed == old(closed) && terminal == old(terminal)
                && err == (if closed then Some(Unsupported) else None)
                && pendingDatabase == (if closed then old(pendingDatabase) else database)
                && world.trace == old(world.trace)
      ensures old(forwarding) != null ==>
                var u, ends := old(forwarding).upstream, err.Some? && !err.value.IsMySQLError();
                && forwarding == (if ends then null else old(forwarding))
                && terminal == (if ends then err else old(terminal))
                && pendingDatabase == old(pendingDatabase)
                && world.trace == AfterWork(old(world.trace), UsedDB(u, database, err), if ends then err else None)
      ensures forwarding != null ==> MaskedFieldCount() == old(MaskedFieldCount())
      ensures SameUpstreams(old(History()), History()) && History().user == old(History().user)
    {
      hide Safe, Summarize;
      if forwarding == null {
        if closed {
          return Some(Unsupported);
        }
        pendingDatabase := database;
        return None;
      }
      ghost var t := world.trace;
      var active := forwarding;
      err := active.UseDB(database);
      ghost var e := UsedDB(active.upstream, database, err);
      if active.closed {
        SessionEnds(rules, t, e, active.terminal.value);
        Deactivate(active.terminal);
      } else {
        SessionContinues(rules, t, e);
      }
    }

    /** Runs the query on the active upstream under the decision set last. What
        the client gets, and whether the session ends, follows from what the
        upstream answered. */
    method HandleQuery(query: string) returns (result: Result?, err: Option<Error>, ghost answer: Answer)
      requires Valid()
      requires rules.Sendable(query, decision)
      modifies this`forwarding, this`closed, this`terminal, world`trace, ActiveHandler()
      ensures Valid()
      ensures result != null ==> fresh(result)
      ensures old(forwarding) == null ==>
                && result == null && err == Some(Unsupported)
                && forwarding == null && closed == old(closed) && terminal == old(terminal)
                && world.trace == old(world.trace)
      ensures old(forwarding) != null ==>
                var u, ending := old(forwarding).upstream, Ending(lib, masker, limits, decision, answer);
                && world.trace == AfterWork(old(world.trace), Executed(u, query, decision, answer), ending)
                && (answer.Streamed? <==> limits.Set() && old(forwarding).streams)
                && (err, Given(result)) == Reply(lib, masker, limits, decision, answer)
                && forwarding == (if ending.Some? then null else old(forwarding))
                && terminal == (if ending.Some? then ending else old(terminal))
                && MaskedFieldCount() == LoggedCount(lib, masker, limits, decision, Delivered(lib, limits, answer))
      ensures SameUpstreams(old(History()), History()) && History().user == old(History().user)
    {
      hide Safe, Summarize;
      if forwarding == null {
        return null, Some(Unsupported), Whole(None, None);
      }
      ghost var t := world.trace;
      var active := forwarding;
      result, err, answer := active.HandleQuery(query);
      ghost var e := Executed(active.upstream, query, decision, answer);
      EndingIff(lib, masker, limits, decision, answer);
      if active.closed {
        SessionEnds(rules, t, e, active.terminal.value);
        Deactivate(active.terminal);
      } else {
        SessionContinues(rules, t, e);
      }
    }

    ghost method StartCommand()
      requires Valid() && terminal == None && !History().clientLost
      modifies world`trace
      ensures Valid() && History() == old(History())
      ensures world.trace == old(world.trace) + [CommandStarted]
    {
      Extend(rules, world.trace, CommandStarted);
      world.Note(CommandStarted);
    }

    function MaskedFieldCount(): nat
      reads this, forwarding
    {
      if forwarding == null then 0 else forwarding.maskedFields
    }

    method SetQueryDecision(d: Decision)
      requires Valid()
      modifies this`decision, ActiveHandler()
      ensures Valid() && decision == d
      ensures MaskedFieldCount() == old(MaskedFieldCount())
    {
      decision := d;
      if forwarding != null {
        forwarding.decision := d;
      }
    }
  }
}
