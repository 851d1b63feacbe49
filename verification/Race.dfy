/**
 Any number of client connections authenticating at once against one store.
 The store's mutex makes each of its calls atomic; everything else interleaves.
 An upstream is connected and activated before the credential is consumed, so
 a connection can find the credential gone after it has opened an upstream.
 */
module Race {
  import opened Common
  import opened Otp
  import opened OtpLaws

  datatype Link = Unopened | Open | Closed

  /** `claim` is the position of the connection's own Consume among all calls
      on the store. */
  datatype Phase =
    | Greeting
    | Linked
    | Active
    | Claimed(user: User, claim: nat)
    | Authenticated(identity: string, claim: nat)
    | Ended(identity: string, claim: nat)
    | Refused

  datatype Conn = Conn(phase: Phase, link: Link, lastUsername: string)

  /** All calls made on the store so far, and the connections accepted. */
  datatype System = System(calls: seq<Op>, conns: map<nat, Conn>)

  const START := System([], map[])

  datatype Action =
    | Call(op: Op)
    | Accept(c: nat)
    | GetCredential(c: nat, username: string, source: string, now: int)
    | AuthFailure(c: nat, username: string, source: string, now: int)
    | Connect(c: nat, ok: bool)
    | Activate(c: nat, ok: bool)
    | ConsumeAuthSuccess(c: nat, username: string, now: int)
    | Audit(c: nat, ok: bool)
    | HangUp(c: nat)

  predicate In(s: System, c: nat, phase: Phase) {
    c in s.conns && s.conns[c].phase == phase
  }

  /** The clock does not go back. */
  predicate Timely(calls: seq<Op>, now: int) {
    forall i :: 0 <= i < |calls| ==> calls[i].now <= now
  }

  predicate Enabled(s: System, a: Action) {
    match a
    case Call(op) => !op.Consume? && Timely(s.calls, op.now)
    case Accept(c) => c !in s.conns
    case GetCredential(c, _, _, now) => In(s, c, Greeting) && Timely(s.calls, now)
    case AuthFailure(c, _, _, now) => In(s, c, Greeting) && Timely(s.calls, now)
    case Connect(c, _) => In(s, c, Greeting)
    case Activate(c, _) => In(s, c, Linked)
    case ConsumeAuthSuccess(c, _, now) => In(s, c, Active) && Timely(s.calls, now)
    case Audit(c, _) => c in s.conns && s.conns[c].phase.Claimed?
    case HangUp(c) => In(s, c, Greeting) || (c in s.conns && s.conns[c].phase.Authenticated?)
  }

  function NameOf(conn: Conn, username: string): string {
    if username == "" then conn.lastUsername else username
  }

  /** session.Close and a refused Activate close the upstream that is open. */
  function Refuse(conn: Conn): Conn {
    conn.(phase := Refused, link := if conn.link == Open then Closed else conn.link)
  }

  /** What the action makes of the connection it belongs to; `outcome` is the
      store's answer to a ConsumeAuthSuccess, the call at position `at`. */
  function Moved(conn: Conn, a: Action, outcome: Outcome, at: nat): Conn {
    match a
    case Call(_) => conn
    case Accept(_) => Conn(Greeting, Unopened, "")
    case GetCredential(_, username, _, _) => conn.(lastUsername := username)
    case AuthFailure(_, _, _, _) => Refuse(conn)
    case Connect(_, ok) => if ok then conn.(phase := Linked, link := Open) else Refuse(conn)
    case Activate(_, ok) => if ok then conn.(phase := Active) else Refuse(conn)
    case ConsumeAuthSuccess(_, _, _) =>
      if outcome.Consumed? then conn.(phase := Claimed(outcome.consumer, at)) else Refuse(conn)
    case Audit(_, ok) =>
      if ok && conn.phase.Claimed? then conn.(phase := Authenticated(conn.phase.user.id, conn.phase.claim))
      else Refuse(conn)
    case HangUp(_) =>
      if conn.phase.Authenticated? then Conn(Ended(conn.phase.identity, conn.phase.claim), Closed, conn.lastUsername)
      else Refuse(conn)
  }

  /** The call the action makes on the store, if any. */
  function StoreCall(s: System, a: Action): Option<Op>
    requires Enabled(s, a)
  {
    match a
    case Call(op) => Some(op)
    case GetCredential(_, username, source, now) => Some(Lookup(username, source, now))
    case AuthFailure(c, username, source, now) => Some(Fail(NameOf(s.conns[c], username), source, now))
    case ConsumeAuthSuccess(c, username, now) => Some(Otp.Consume(NameOf(s.conns[c], username), now))
    case _ => None
  }

  /** One action of the system; one that is not possible changes nothing. */
  function Next(cfg: Config, s: System, a: Action): System {
    if !Enabled(s, a) then s
    else
      var call := StoreCall(s, a);
      var calls := if call.None? then s.calls else s.calls + [call.value];
      var outcome := if call.None? then NotFound else Step(cfg, Run(cfg, s.calls), call.value).1;
      if a.Call? then System(calls, s.conns)
      else
        var conn := if a.c in s.conns then s.conns[a.c] else Conn(Greeting, Unopened, "");
        System(calls, s.conns[a.c := Moved(conn, a, outcome, |s.calls|)])
  }

  function Reached(cfg: Config, actions: seq<Action>): System {
    if actions == [] then START
    else Next(cfg, Reached(cfg, actions[..|actions| - 1]), actions[|actions| - 1])
  }

  // ----- invariant

  /** The connection has used a credential up. */
  predicate Won(conn: Conn) {
    conn.phase.Claimed? || conn.phase.Authenticated? || conn.phase.Ended?
  }

  function Identity(conn: Conn): string
    requires Won(conn)
  {
    if conn.phase.Claimed? then conn.phase.user.id else conn.phase.identity
  }

  /** The claim of a winner is its own successful Consume. */
  predicate Grounded(cfg: Config, calls: seq<Op>, conn: Conn) {
    Won(conn) ==>
      && conn.phase.claim < |calls|
      && calls[conn.phase.claim].Consume?
      && OutcomeAt(cfg, calls, conn.phase.claim).Consumed?
      && OutcomeAt(cfg, calls, conn.phase.claim).consumer.id == Identity(conn)
  }

  /** The upstream is open while the connection needs it, and only then. */
  predicate LinkFits(conn: Conn) {
    match conn.phase
    case Greeting => conn.link == Unopened
    case Refused => conn.link != Open
    case Ended(_, _) => conn.link == Closed
    case _ => conn.link == Open
  }

  predicate ClaimsDiffer(a: Conn, b: Conn) {
    Won(a) && Won(b) ==> a.phase.claim != b.phase.claim
  }

  ghost predicate Inv(cfg: Config, s: System) {
    && ClockOrdered(s.calls)
    && (forall c :: c in s.conns ==> Grounded(cfg, s.calls, s.conns[c]) && LinkFits(s.conns[c]))
    && (forall c, d :: c in s.conns && d in s.conns && c != d ==> ClaimsDiffer(s.conns[c], s.conns[d]))
  }

  lemma OutcomeKept(cfg: Config, calls: seq<Op>, op: Op, i: nat)
    requires i < |calls|
    ensures OutcomeAt(cfg, calls + [op], i) == OutcomeAt(cfg, calls, i)
  {
    assert (calls + [op])[..i] == calls[..i];
  }

  lemma GroundedKept(cfg: Config, calls: seq<Op>, op: Op, conn: Conn)
    requires Grounded(cfg, calls, conn)
    ensures Grounded(cfg, calls + [op], conn)
  {
    if Won(conn) {
      OutcomeKept(cfg, calls, op, conn.phase.claim);
    }
  }

  lemma InvKept(cfg: Config, s: System, a: Action)
    requires Inv(cfg, s)
    ensures Inv(cfg, Next(cfg, s, a))
  {
    if Enabled(s, a) {
      var t := Next(cfg, s, a);
      var call := StoreCall(s, a);
      if call.Some? {
        forall c | c in s.conns ensures Grounded(cfg, t.calls, s.conns[c]) {
          GroundedKept(cfg, s.calls, call.value, s.conns[c]);
        }
        assert t.calls[..|s.calls|] == s.calls;
      }
      if !a.Call? {
        ActorKept(cfg, s, a);
      }
    }
  }

  /** The connection that acts stays grounded, and claims nothing that another
      one claims. */
  lemma ActorKept(cfg: Config, s: System, a: Action)
    requires Inv(cfg, s) && Enabled(s, a) && !a.Call?
    ensures var t := Next(cfg, s, a);
            && Grounded(cfg, t.calls, t.conns[a.c]) && LinkFits(t.conns[a.c])
            && forall c :: c in s.conns && c != a.c ==> ClaimsDiffer(s.conns[c], t.conns[a.c])
  {
    var t := Next(cfg, s, a);
    var call := StoreCall(s, a);
    if a.c in s.conns {
      if call.Some? {
        GroundedKept(cfg, s.calls, call.value, s.conns[a.c]);
        assert t.calls[..|s.calls|] == s.calls;
      }
    }
  }

  lemma {:induction false} InvAlways(cfg: Config, actions: seq<Action>)
    ensures Inv(cfg, Reached(cfg, actions))
  {
    if actions != [] {
      InvAlways(cfg, actions[..|actions| - 1]);
      InvKept(cfg, Reached(cfg, actions[..|actions| - 1]), actions[|actions| - 1]);
    }
  }

  // ----- each Issue is matched by at most one session

  /** The position of the last true mark among the first n, or -1. */
  function LastMark(marks: seq<bool>, n: nat): (k: int)
    requires n <= |marks|
    ensures -1 <= k < n && (k >= 0 ==> marks[k])
    ensures forall j :: k < j < n ==> !marks[j]
  {
    if n == 0 then -1 else if marks[n - 1] then n - 1 else LastMark(marks, n - 1)
  }

  /** For each call, whether it issued a credential under the name. */
  function Issues(cfg: Config, calls: seq<Op>, username: string): (marks: seq<bool>)
    ensures |marks| == |calls|
  {
    seq(|calls|, i requires 0 <= i < |calls| => IssuedAt(cfg, calls, username, i))
  }

  /** The position of the latest Issue of the name among the first n calls, or
      -1. */
  function LatestIssue(cfg: Config, calls: seq<Op>, username: string, n: nat): int
    requires n <= |calls|
  {
    LastMark(Issues(cfg, calls, username), n)
  }

  /** The Issue a winner's credential came from. */
  function IssueOf(cfg: Config, calls: seq<Op>, conn: Conn): int
    requires Won(conn) && Grounded(cfg, calls, conn)
  {
    LatestIssue(cfg, calls, calls[conn.phase.claim].username, conn.phase.claim)
  }

  lemma LatestIssueIs(cfg: Config, calls: seq<Op>, username: string, n: nat)
    requires n <= |calls|
    ensures var k := LatestIssue(cfg, calls, username, n);
            && -1 <= k < n
            && (k >= 0 ==> IssuedAt(cfg, calls, username, k))
            && forall j :: k < j < n ==> !IssuedAt(cfg, calls, username, j)
  {
    var marks := Issues(cfg, calls, username);
    forall j | LastMark(marks, n) < j < n ensures !IssuedAt(cfg, calls, username, j) {
      assert marks[j] == IssuedAt(cfg, calls, username, j);
    }
  }

  /** Only an Issue makes a credential, and nothing else changes its owner. */
  lemma OwnerComesFromIssue(live: Option<Live>, s: State, cfg: Config, op: Op, username: string)
    ensures Step(cfg, s, op).1.Issued? ==> op.Issue?
    ensures var outcome := Step(cfg, s, op).1;
            var after := LiveAfter(live, op, outcome, username);
            after.Some? ==>
              if outcome.Issued? && op.token == Some(username) then after.value.user == op.user
              else live.Some? && after.value.user == live.value.user
  {
  }

  lemma {:induction false} LiveIsLatestIssue(cfg: Config, calls: seq<Op>, username: string, n: nat)
    requires n <= |calls| && LiveIn(cfg, calls[..n], username).Some?
    ensures var k := LatestIssue(cfg, calls, username, n);
            && 0 <= k < n && calls[k].Issue?
            && LiveIn(cfg, calls[..n], username).value.user == calls[k].user
  {
    if n > 0 {
      LiveStep(cfg, calls, username, n);
      OwnerComesFromIssue(LiveIn(cfg, calls[..n - 1], username), Run(cfg, calls[..n - 1]), cfg, calls[n - 1], username);
      if !IssuedAt(cfg, calls, username, n - 1) {
        LiveIsLatestIssue(cfg, calls, username, n - 1);
      }
    }
  }

  /** In every interleaving, a connection that used a credential up is backed by
      an Issue to the user it is known as. */
  lemma WinnerIsIssuedUser(cfg: Config, actions: seq<Action>, c: nat)
    requires cfg.Positive()
    requires var s := Reached(cfg, actions); c in s.conns && Won(s.conns[c])
    ensures var s := Reached(cfg, actions);
            && Grounded(cfg, s.calls, s.conns[c])
            && var k := IssueOf(cfg, s.calls, s.conns[c]);
               && 0 <= k < s.conns[c].phase.claim
               && IssuedAt(cfg, s.calls, s.calls[s.conns[c].phase.claim].username, k)
               && s.calls[k].Issue? && s.calls[k].user.id == Identity(s.conns[c])
  {
    InvAlways(cfg, actions);
    var s := Reached(cfg, actions);
    var i := s.conns[c].phase.claim;
    var name := s.calls[i].username;
    ConsumeIff(cfg, s.calls[..i], name, s.calls[i].now);
    LiveIsLatestIssue(cfg, s.calls, name, i);
    LatestIssueIs(cfg, s.calls, name, i);
  }

  lemma LaterClaimLaterIssue(cfg: Config, calls: seq<Op>, i: nat, j: nat)
    requires cfg.Positive() && ClockOrdered(calls) && i < j < |calls|
    requires calls[i].Consume? && OutcomeAt(cfg, calls, i).Consumed?
    requires calls[j].Consume? && OutcomeAt(cfg, calls, j).Consumed?
    requires calls[i].username == calls[j].username
    ensures LatestIssue(cfg, calls, calls[i].username, i) < LatestIssue(cfg, calls, calls[j].username, j)
  {
    OneUsePerIssue(cfg, calls, calls[i].username, i, j);
    var k :| i < k < j && IssuedAt(cfg, calls, calls[i].username, k);
    LatestIssueIs(cfg, calls, calls[i].username, i);
    LatestIssueIs(cfg, calls, calls[j].username, j);
  }

  /** No two connections are backed by the same Issue. */
  lemma OneSessionPerIssue(cfg: Config, actions: seq<Action>, c: nat, d: nat)
    requires cfg.Positive() && c != d
    requires var s := Reached(cfg, actions);
             c in s.conns && d in s.conns && Won(s.conns[c]) && Won(s.conns[d])
    ensures var s := Reached(cfg, actions);
            && Grounded(cfg, s.calls, s.conns[c]) && Grounded(cfg, s.calls, s.conns[d])
            && IssueOf(cfg, s.calls, s.conns[c]) != IssueOf(cfg, s.calls, s.conns[d])
  {
    InvAlways(cfg, actions);
    WinnerIsIssuedUser(cfg, actions, c);
    WinnerIsIssuedUser(cfg, actions, d);
    var s := Reached(cfg, actions);
    var i, j := s.conns[c].phase.claim, s.conns[d].phase.claim;
    assert ClaimsDiffer(s.conns[c], s.conns[d]);
    if s.calls[i].username == s.calls[j].username {
      if i < j {
        LaterClaimLaterIssue(cfg, s.calls, i, j);
      } else {
        LaterClaimLaterIssue(cfg, s.calls, j, i);
      }
    }
  }

  /** A connection holds an open upstream exactly from the moment it is linked
      until it is refused or has ended. */
  lemma LosersAreClosed(cfg: Config, actions: seq<Action>, c: nat)
    requires c in Reached(cfg, actions).conns
    ensures var conn := Reached(cfg, actions).conns[c];
            conn.link == Open <==> !conn.phase.Greeting? && !conn.phase.Refused? && !conn.phase.Ended?
  {
    InvAlways(cfg, actions);
  }

  /** The name the connection looked up last, or none. */
  function LookedUp(cfg: Config, actions: seq<Action>, c: nat): string {
    if actions == [] then ""
    else
      var front, a := actions[..|actions| - 1], actions[|actions| - 1];
      if !Enabled(Reached(cfg, front), a) || a.Call? || a.c != c then LookedUp(cfg, front, c)
      else if a.GetCredential? then a.username
      else if a.Accept? then ""
      else LookedUp(cfg, front, c)
  }

  lemma {:induction false} LastUsernameIsLookedUp(cfg: Config, actions: seq<Action>, c: nat)
    ensures var s := Reached(cfg, actions);
            c in s.conns ==> s.conns[c].lastUsername == LookedUp(cfg, actions, c)
  {
    if actions != [] {
      LastUsernameIsLookedUp(cfg, actions[..|actions| - 1], c);
    }
  }

  /** The name an authentication is about: the client's own, or without one the
      name that was looked up last. */
  function UsedName(cfg: Config, actions: seq<Action>, c: nat, given: string): string {
    if given != "" then given else LookedUp(cfg, actions, c)
  }

  /** Trying to use a name up ends in exactly one of two ways: the store had a
      usable credential and the connection is now known as its user, or it had
      none and the upstream, which was open, is closed. */
  lemma UseDecides(cfg: Config, actions: seq<Action>, c: nat, username: string, now: int)
    requires cfg.Positive() && Enabled(Reached(cfg, actions), ConsumeAuthSuccess(c, username, now))
    ensures var s := Reached(cfg, actions);
            var conn := Next(cfg, s, ConsumeAuthSuccess(c, username, now)).conns[c];
            var live := LiveIn(cfg, s.calls, UsedName(cfg, actions, c, username));
            && s.conns[c].link == Open
            && (if Usable(cfg, live, now) then conn.phase == Claimed(live.value.user, |s.calls|) && conn.link == Open
                else conn.phase == Refused && conn.link == Closed)
  {
    InvAlways(cfg, actions);
    LastUsernameIsLookedUp(cfg, actions, c);
    var s := Reached(cfg, actions);
    ConsumeIff(cfg, s.calls, NameOf(s.conns[c], username), now);
  }

  lemma UseSpendsName(cfg: Config, actions: seq<Action>, c: nat, username: string, now: int)
    requires cfg.Positive() && username != ""
    requires Enabled(Reached(cfg, actions), ConsumeAuthSuccess(c, username, now))
    requires Usable(cfg, LiveIn(cfg, Reached(cfg, actions).calls, username), now)
    ensures var run := actions + [ConsumeAuthSuccess(c, username, now)];
            && Reached(cfg, run) == Next(cfg, Reached(cfg, actions), ConsumeAuthSuccess(c, username, now))
            && LiveIn(cfg, Reached(cfg, run).calls, username) == None
  {
    InvAlways(cfg, actions);
    var s, run := Reached(cfg, actions), actions + [ConsumeAuthSuccess(c, username, now)];
    assert run[..|actions|] == actions;
    ConsumeIff(cfg, s.calls, username, now);
    assert (s.calls + [Otp.Consume(username, now)])[..|s.calls|] == s.calls;
  }

  /** No connection gets stuck: until it is refused or has ended, it can go on. */
  lemma AlwaysAStep(cfg: Config, actions: seq<Action>, c: nat)
    requires var s := Reached(cfg, actions);
             c in s.conns && !s.conns[c].phase.Refused? && !s.conns[c].phase.Ended?
    ensures exists a: Action :: !a.Call? && a.c == c && Enabled(Reached(cfg, actions), a)
  {
    InvAlways(cfg, actions);
    var s := Reached(cfg, actions);
    match s.conns[c].phase
    case Linked => assert Enabled(s, Activate(c, true));
    case Active =>
      var now := if s.calls == [] then 0 else s.calls[|s.calls| - 1].now;
      assert Enabled(s, ConsumeAuthSuccess(c, "", now));
    case Claimed(_, _) => assert Enabled(s, Audit(c, true));
    case Greeting => assert Enabled(s, HangUp(c));
    case Authenticated(_, _) => assert Enabled(s, HangUp(c));
    case _ =>
  }

  /** Of two connections that try to use one name up, the first gets it and the
      upstream of the other is closed. */
  lemma FirstUseWins(cfg: Config, actions: seq<Action>, c: nat, d: nat, username: string, now: int, later: int)
    requires cfg.Positive() && c != d && username != "" && now <= later
    requires Enabled(Reached(cfg, actions), ConsumeAuthSuccess(c, username, now))
    requires In(Reached(cfg, actions), d, Active)
    requires Usable(cfg, LiveIn(cfg, Reached(cfg, actions).calls, username), now)
    ensures var s := Reached(cfg, actions);
            var first, second := ConsumeAuthSuccess(c, username, now), ConsumeAuthSuccess(d, username, later);
            var t := Next(cfg, Next(cfg, s, first), second);
            && t.conns[c].phase.Claimed? && t.conns[c].link == Open
            && t.conns[d].phase == Refused && t.conns[d].link == Closed
  {
    UseDecides(cfg, actions, c, username, now);
    UseSpendsName(cfg, actions, c, username, now);
    UseDecides(cfg, actions + [ConsumeAuthSuccess(c, username, now)], d, username, later);
  }

  /** A user who is issued a credential under some name and connects with it at
      once is authenticated. */
  function PromptUse(user: User, session: string, name: string, secret: Bytes): seq<Action> {
    [Call(Issue(user, session, Some(name), Some(secret), 0)), Accept(0), Connect(0, true), Activate(0, true),
     ConsumeAuthSuccess(0, name, 0), Audit(0, true)]
  }

  lemma ReachedAt(cfg: Config, actions: seq<Action>, n: nat)
    requires n < |actions|
    ensures Reached(cfg, actions[..n + 1]) == Next(cfg, Reached(cfg, actions[..n]), actions[n])
  {
    assert actions[..n + 1][..n] == actions[..n];
  }

  lemma OtherCall(cfg: Config, s: System, op: Op)
    requires Enabled(s, Call(op))
    ensures Next(cfg, s, Call(op)) == System(s.calls + [op], s.conns)
  {
  }

  lemma FirstAccepted(cfg: Config, run: seq<Action>, op: Op)
    requires |run| >= 2 && run[0] == Call(op) && run[1] == Accept(0) && !op.Consume?
    ensures Reached(cfg, run[..2]) == System([op], map[0 := Conn(Greeting, Unopened, "")])
  {
    hide Step;
    ReachedAt(cfg, run, 0);
    OtherCall(cfg, START, op);
    assert [] + [op] == [op];
    ReachedAt(cfg, run, 1);
  }

  lemma PromptlyActive(cfg: Config, user: User, session: string, name: string, secret: Bytes)
    ensures Reached(cfg, PromptUse(user, session, name, secret)[..4])
            == System([Issue(user, session, Some(name), Some(secret), 0)], map[0 := Conn(Active, Open, "")])
  {
    hide Step;
    var run := PromptUse(user, session, name, secret);
    FirstAccepted(cfg, run, Issue(user, session, Some(name), Some(secret), 0));
    ReachedAt(cfg, run, 2);
    ReachedAt(cfg, run, 3);
  }

  lemma IssuedIsUsable(cfg: Config, issue: Op)
    requires cfg.Positive() && issue.Issue? && issue.token.Some? && issue.secret.Some?
    ensures LiveIn(cfg, [issue], issue.token.value) == Some(Live(issue.user, issue.secret.value, issue.now, 0))
  {
    IssueIff(cfg, [], issue.user, issue.session, issue.token, issue.secret, issue.now);
    assert [issue][..0] == [];
    assert Run(cfg, []) == EMPTY;
  }

  lemma PromptUseSucceeds(cfg: Config, user: User, session: string, name: string, secret: Bytes)
    requires cfg.Positive() && name != ""
    ensures var s := Reached(cfg, PromptUse(user, session, name, secret));
            0 in s.conns && s.conns[0].phase == Authenticated(user.id, 1) && s.conns[0].link == Open
  {
    hide Step;
    var run := PromptUse(user, session, name, secret);
    PromptlyActive(cfg, user, session, name, secret);
    IssuedIsUsable(cfg, Issue(user, session, Some(name), Some(secret), 0));
    UseDecides(cfg, run[..4], 0, name, 0);
    ReachedAt(cfg, run, 4);
    ReachedAt(cfg, run, 5);
    assert run[..6] == run;
  }

  // ----- failed authentications

  /** The action issues a credential under the name. */
  predicate IssuesName(cfg: Config, s: System, a: Action, name: string) {
    && Enabled(s, a) && a.Call? && a.op.Issue? && a.op.token == Some(name)
    && Step(cfg, Run(cfg, s.calls), a.op).1.Issued?
  }

  /** The action is a failed authentication of the name, by a connection or by
      another user of the store. */
  predicate FailsName(cfg: Config, actions: seq<Action>, a: Action, name: string) {
    && Enabled(Reached(cfg, actions), a)
    && (|| (a.AuthFailure? && UsedName(cfg, actions, a.c, a.username) == name)
        || (a.Call? && a.op.Fail? && a.op.username == name))
  }

  /** How often the name failed to authenticate since it was issued last. */
  function FailuresSinceIssue(cfg: Config, actions: seq<Action>, name: string): nat {
    if actions == [] then 0
    else
      var front, a := actions[..|actions| - 1], actions[|actions| - 1];
      var s, before := Reached(cfg, front), FailuresSinceIssue(cfg, front, name);
      if IssuesName(cfg, s, a, name) then 0 else if FailsName(cfg, front, a, name) then before + 1 else before
  }

  lemma CallsAfter(cfg: Config, actions: seq<Action>, name: string)
    requires actions != []
    ensures var front, a := actions[..|actions| - 1], actions[|actions| - 1];
            var s, calls := Reached(cfg, front), Reached(cfg, actions).calls;
            if Enabled(s, a) && StoreCall(s, a).Some? then
              var op := StoreCall(s, a).value;
              && calls == s.calls + [op]
              && LiveIn(cfg, calls, name)
                 == LiveAfter(LiveIn(cfg, s.calls, name), op, Step(cfg, Run(cfg, s.calls), op).1, name)
            else calls == s.calls
  {
    var front, a := actions[..|actions| - 1], actions[|actions| - 1];
    var s := Reached(cfg, front);
    if Enabled(s, a) && StoreCall(s, a).Some? {
      var calls := s.calls + [StoreCall(s, a).value];
      assert calls[..|s.calls|] == s.calls;
    }
  }

  /** The failures counted against a live credential are the failed
      authentications of its name since it was issued. */
  lemma {:induction false} FailuresAreCounted(cfg: Config, actions: seq<Action>, name: string)
    ensures var live := LiveIn(cfg, Reached(cfg, actions).calls, name);
            live.Some? ==> live.value.failures == FailuresSinceIssue(cfg, actions, name)
  {
    if actions != [] {
      var front, a := actions[..|actions| - 1], actions[|actions| - 1];
      FailuresAreCounted(cfg, front, name);
      CallsAfter(cfg, actions, name);
      if a.AuthFailure? {
        LastUsernameIsLookedUp(cfg, front, a.c);
      }
    }
  }

  /** A name that failed to authenticate as often as the limit since it was
      issued is claimed by no connection. */
  lemma FailedNameIsNotClaimed(cfg: Config, actions: seq<Action>, c: nat, username: string, now: int)
    requires cfg.Positive() && Enabled(Reached(cfg, actions), ConsumeAuthSuccess(c, username, now))
    requires FailuresSinceIssue(cfg, actions, UsedName(cfg, actions, c, username)) >= cfg.credentialFailureLimit
    ensures var conn := Next(cfg, Reached(cfg, actions), ConsumeAuthSuccess(c, username, now)).conns[c];
            conn.phase == Refused && conn.link == Closed
  {
    FailuresAreCounted(cfg, actions, UsedName(cfg, actions, c, username));
    UseDecides(cfg, actions, c, username, now);
  }

  /** Where the other steps of a connection lead, and what becomes of its
      upstream; a failed authentication is counted against its name. */
  lemma StepDecides(cfg: Config, actions: seq<Action>, a: Action)
    requires Enabled(Reached(cfg, actions), a) && !a.Call? && !a.Accept? && !a.ConsumeAuthSuccess?
    ensures var s := Reached(cfg, actions);
            var before, after := s.conns[a.c], Next(cfg, s, a).conns[a.c];
            match a
            case GetCredential(_, username, source, now) =>
              && after == before.(lastUsername := username)
              && Next(cfg, s, a).calls == s.calls + [Lookup(username, source, now)]
            case AuthFailure(_, _, source, now) =>
              && after.phase == Refused && after.link == Unopened
              && Next(cfg, s, a).calls == s.calls + [Fail(UsedName(cfg, actions, a.c, a.username), source, now)]
            case Connect(_, ok) =>
              if ok then after.phase == Linked && after.link == Open
              else after.phase == Refused && after.link == Unopened
            case Activate(_, ok) =>
              if ok then after.phase == Active && after.link == Open
              else after.phase == Refused && after.link == Closed
            case Audit(_, ok) =>
              if ok then after.phase == Authenticated(before.phase.user.id, before.phase.claim) && after.link == Open
              else after.phase == Refused && after.link == Closed
            case HangUp(_) =>
              if before.phase == Greeting then after.phase == Refused && after.link == Unopened
              else after.phase.Ended? && after.link == Closed
            case _ => true
  {
    InvAlways(cfg, actions);
    LastUsernameIsLookedUp(cfg, actions, a.c);
    assert LinkFits(Reached(cfg, actions).conns[a.c]);
  }
}
