/**
 The one-time-credential store as a state machine: what each operation does to
 the stored credentials and to the sliding-window buckets. Times are integers.
 */
module Otp {
  import opened Common

  datatype User = User(id: string, displayName: string)

  datatype Config = Config(
    ttl: int,
    credentialFailureLimit: int,
    sourceFailureLimit: int,
    sourceFailureWindow: int,
    userLimit: int,
    sessionLimit: int,
    issuanceWindow: int)
  {
    /** What NewStore makes of any configuration. */
    predicate Positive() {
      ttl > 0 && credentialFailureLimit > 0 && sourceFailureLimit > 0 && sourceFailureWindow > 0
      && userLimit > 0 && sessionLimit > 0 && issuanceWindow > 0
    }
  }

  datatype Entry = Entry(user: User, password: Bytes, expiresAt: int, failures: nat, locked: bool)

  type Buckets = map<string, seq<int>>

  datatype State = State(credentials: map<string, Entry>, sources: Buckets, userIssues: Buckets, sessionIssues: Buckets)

  const EMPTY := State(map[], map[], map[], map[])

  // ----- sliding windows

  /** The times not before start, in order. */
  function Since(times: seq<int>, start: int): seq<int> {
    if times == [] then []
    else
      var front := Since(times[..|times| - 1], start);
      if times[|times| - 1] >= start then front + [times[|times| - 1]] else front
  }

  function Recent(b: Buckets, key: string, start: int): seq<int> {
    if key in b then Since(b[key], start) else []
  }

  /** The buckets after the window of one key was looked at. */
  function Pruned(b: Buckets, key: string, start: int): Buckets {
    var kept := Recent(b, key, start);
    if kept == [] then b - {key} else b[key := kept]
  }

  function Appended(b: Buckets, key: string, start: int, now: int): Buckets {
    Pruned(b, key, start)[key := Recent(b, key, start) + [now]]
  }

  // ----- operations

  /** One call on the store. Random tokens are inputs; None is a failing source
      of randomness. */
  datatype Op =
    | Issue(user: User, session: string, token: Option<string>, secret: Option<Bytes>, now: int)
    | Lookup(username: string, source: string, now: int)
    | Consume(username: string, now: int)
    | Fail(username: string, source: string, now: int)

  datatype Outcome =
    | Issued(username: string, password: Bytes, expiresAt: int)
    | Pending(owner: User, expires: int, material: Bytes)
    | Consumed(consumer: User)
    | Recorded
    | NotFound | Expired | Locked | SourceRateLimited | IssuanceRateLimited | RandomFailed

  function Cleared(password: Bytes): Bytes {
    seq(|password|, _ => 0)
  }

  /** The two issuance limits, of the user and then of the browser session. */
  function Throttled(cfg: Config, s: State, userID: string, session: string, now: int): (State, bool) {
    var start := now - cfg.issuanceWindow;
    var s1 := s.(userIssues := Pruned(s.userIssues, userID, start));
    if |Recent(s.userIssues, userID, start)| >= cfg.userLimit then (s1, true)
    else (s1.(sessionIssues := Pruned(s.sessionIssues, session, start)),
          |Recent(s.sessionIssues, session, start)| >= cfg.sessionLimit)
  }

  function Granted(cfg: Config, s: State, user: User, session: string, username: string, password: Bytes,
                   now: int): State {
    var start := now - cfg.issuanceWindow;
    State(s.credentials[username := Entry(user, password, now + cfg.ttl, 0, false)], s.sources,
          Appended(s.userIssues, user.id, start, now),
          Appended(s.sessionIssues, session, start, now))
  }

  function IssueStep(cfg: Config, s: State, op: Op): (State, Outcome)
    requires op.Issue?
  {
    var (s1, limited) := Throttled(cfg, s, op.user.id, op.session, op.now);
    if limited then (s1, IssuanceRateLimited)
    else if op.token.None? || op.secret.None? then (s1, RandomFailed)
    else (Granted(cfg, s1, op.user, op.session, op.token.value, op.secret.value, op.now),
          Issued(op.token.value, op.secret.value, op.now + cfg.ttl))
  }

  function LookupStep(cfg: Config, s: State, op: Op): (State, Outcome)
    requires op.Lookup?
  {
    var start := op.now - cfg.sourceFailureWindow;
    var s1 := s.(sources := Pruned(s.sources, op.source, start));
    if |Recent(s.sources, op.source, start)| >= cfg.sourceFailureLimit then (s1, SourceRateLimited)
    else Opened(s1, op.username, op.now)
  }

  /** The verifier material of a stored credential; an expired one is dropped. */
  function Opened(s: State, username: string, now: int): (State, Outcome) {
    if username !in s.credentials then (s, NotFound)
    else
      var entry := s.credentials[username];
      if now >= entry.expiresAt then (s.(credentials := s.credentials - {username}), Expired)
      else if entry.locked then (s, Locked)
      else (s, Pending(entry.user, entry.expiresAt, entry.password))
  }

  function ConsumeStep(s: State, op: Op): (State, Outcome)
    requires op.Consume?
  {
    if op.username !in s.credentials then (s, NotFound)
    else
      var entry := s.credentials[op.username];
      if op.now >= entry.expiresAt then (s.(credentials := s.credentials - {op.username}), Expired)
      else if entry.locked then (s, Locked)
      else (s.(credentials := s.credentials - {op.username}), Consumed(entry.user))
  }

  function Failed(cfg: Config, entry: Entry): Entry {
    var failures := entry.failures + 1;
    if failures >= cfg.credentialFailureLimit then
      entry.(failures := failures, locked := true, password := Cleared(entry.password))
    else entry.(failures := failures)
  }

  function FailStep(cfg: Config, s: State, op: Op): (State, Outcome)
    requires op.Fail?
  {
    var start := op.now - cfg.sourceFailureWindow;
    var s1 := s.(sources := Appended(s.sources, op.source, start, op.now));
    if op.username in s.credentials then
      (s1.(credentials := s.credentials[op.username := Failed(cfg, s.credentials[op.username])]), Recorded)
    else (s1, Recorded)
  }

  function Step(cfg: Config, s: State, op: Op): (State, Outcome) {
    match op
    case Issue(_, _, _, _, _) => IssueStep(cfg, s, op)
    case Lookup(_, _, _) => LookupStep(cfg, s, op)
    case Consume(_, _) => ConsumeStep(s, op)
    case Fail(_, _, _) => FailStep(cfg, s, op)
  }

  /** The state after a sequence of calls on an empty store. */
  function Run(cfg: Config, ops: seq<Op>): State {
    if ops == [] then EMPTY else Step(cfg, Run(cfg, ops[..|ops| - 1]), ops[|ops| - 1]).0
  }

  /** What the call at position i returned. */
  function OutcomeAt(cfg: Config, ops: seq<Op>, i: nat): Outcome
    requires i < |ops|
  {
    Step(cfg, Run(cfg, ops[..i]), ops[i]).1
  }

  predicate ClockOrdered(ops: seq<Op>) {
    forall i, j :: 0 <= i < j < |ops| ==> ops[i].now <= ops[j].now
  }

  lemma RunSnoc(cfg: Config, ops: seq<Op>, op: Op)
    ensures Run(cfg, ops + [op]) == Step(cfg, Run(cfg, ops), op).0
  {
    assert (ops + [op])[..|ops|] == ops;
  }

  // ----- facts about windows

  lemma {:induction false} SinceSince(times: seq<int>, a: int, b: int)
    requires a <= b
    ensures Since(Since(times, a), b) == Since(times, b)
  {
    if times != [] {
      var front := times[..|times| - 1];
      SinceSince(front, a, b);
      if times[|times| - 1] >= a {
        var kept := Since(front, a) + [times[|times| - 1]];
        assert kept[..|kept| - 1] == Since(front, a);
      }
    }
  }

  lemma SinceSnoc(times: seq<int>, t: int, start: int)
    ensures Since(times + [t], start) == Since(times, start) + if t >= start then [t] else []
  {
    assert (times + [t])[..|times|] == times;
  }

  /** Looking at a window before adding to it changes nothing. */
  lemma AppendedAfterPruned(b: Buckets, key: string, start: int, now: int)
    ensures Appended(Pruned(b, key, start), key, start, now) == Appended(b, key, start, now)
  {
    if key in b {
      SinceSince(b[key], start, start);
    }
  }
}
