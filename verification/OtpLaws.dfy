/** What holds of the store after every sequence of calls. */
module OtpLaws {
  import opened Common
  import opened Otp

  // ----- pruned buckets answer like the full history

  predicate NoEmptyBucket(b: Buckets) {
    forall k :: k in b ==> b[k] != []
  }

  datatype Table = Users | Sessions | Sources

  function Bucket(s: State, table: Table): Buckets {
    match table
    case Users => s.userIssues
    case Sessions => s.sessionIssues
    case Sources => s.sources
  }

  function Window(cfg: Config, table: Table): int {
    if table == Sources then cfg.sourceFailureWindow else cfg.issuanceWindow
  }

  /** The call adds a time to the key's bucket. */
  predicate Counts(outcome: Outcome, op: Op, table: Table, key: string) {
    match table
    case Users => op.Issue? && outcome.Issued? && op.user.id == key
    case Sessions => op.Issue? && outcome.Issued? && op.session == key
    case Sources => op.Fail? && op.source == key
  }

  /** The times of all calls that counted for a key, never pruned. */
  function History(cfg: Config, ops: seq<Op>, table: Table, key: string): seq<int> {
    if ops == [] then []
    else
      var front, op := ops[..|ops| - 1], ops[|ops| - 1];
      History(cfg, front, table, key)
      + if Counts(Step(cfg, Run(cfg, front), op).1, op, table, key) then [op.now] else []
  }

  lemma HistorySnoc(cfg: Config, front: seq<Op>, op: Op, table: Table, key: string)
    ensures var h := History(cfg, front, table, key);
            History(cfg, front + [op], table, key)
            == if Counts(Step(cfg, Run(cfg, front), op).1, op, table, key) then h + [op.now] else h
  {
    assert (front + [op])[..|front|] == front;
    var h := History(cfg, front, table, key);
    assert h + [] == h;
  }

  predicate Agrees(b: Buckets, key: string, history: seq<int>, start: int) {
    Recent(b, key, start) == Since(history, start)
  }

  lemma PrunedAgrees(b: Buckets, key: string, history: seq<int>, other: string, cut: int, start: int)
    requires cut <= start && Agrees(b, key, history, start)
    ensures Agrees(Pruned(b, other, cut), key, history, start)
  {
    if key == other && key in b {
      SinceSince(b[key], cut, start);
      if Since(b[key], cut) == [] {
        assert Since([], start) == [];
      }
    }
  }

  lemma AppendedAgrees(b: Buckets, key: string, history: seq<int>, other: string, cut: int, now: int, start: int)
    requires cut <= start && Agrees(b, key, history, start)
    ensures Agrees(Appended(b, other, cut, now), key, if key == other then history + [now] else history, start)
  {
    PrunedAgrees(b, key, history, other, cut, start);
    if key == other {
      var kept := Recent(b, key, cut);
      SinceSnoc(kept, now, start);
      SinceSnoc(history, now, start);
      if key in b {
        SinceSince(b[key], cut, start);
      }
    }
  }

  /** What one call does to the buckets of a table. */
  datatype Effect = Untouched | PrunedKey(key: string) | AppendedKey(key: string)

  function EffectOf(cfg: Config, s: State, op: Op, table: Table): Effect {
    var outcome := Step(cfg, s, op).1;
    match (op, table)
    case (Issue(user, _, _, _, _), Users) => if outcome.Issued? then AppendedKey(user.id) else PrunedKey(user.id)
    case (Issue(user, session, _, _, now), Sessions) =>
      if outcome.Issued? then AppendedKey(session)
      else if |Recent(s.userIssues, user.id, now - cfg.issuanceWindow)| >= cfg.userLimit then Untouched
      else PrunedKey(session)
    case (Lookup(_, source, _), Sources) => PrunedKey(source)
    case (Fail(_, source, _), Sources) => AppendedKey(source)
    case _ => Untouched
  }

  function Apply(b: Buckets, effect: Effect, cut: int, now: int): Buckets {
    match effect
    case Untouched => b
    case PrunedKey(key) => Pruned(b, key, cut)
    case AppendedKey(key) => Appended(b, key, cut, now)
  }

  lemma IssueEffect(cfg: Config, s: State, op: Op, table: Table)
    requires op.Issue?
    ensures Bucket(IssueStep(cfg, s, op).0, table)
            == Apply(Bucket(s, table), EffectOf(cfg, s, op, table), op.now - cfg.issuanceWindow, op.now)
  {
    AppendedAfterPruned(s.userIssues, op.user.id, op.now - cfg.issuanceWindow, op.now);
    AppendedAfterPruned(s.sessionIssues, op.session, op.now - cfg.issuanceWindow, op.now);
  }

  lemma StepEffect(cfg: Config, s: State, op: Op, table: Table)
    ensures Bucket(Step(cfg, s, op).0, table)
            == Apply(Bucket(s, table), EffectOf(cfg, s, op, table), op.now - Window(cfg, table), op.now)
    ensures forall key ::
              Counts(Step(cfg, s, op).1, op, table, key) <==> EffectOf(cfg, s, op, table) == AppendedKey(key)
  {
    if op.Issue? {
      IssueEffect(cfg, s, op, table);
    }
  }

  lemma ApplyAgrees(b: Buckets, key: string, history: seq<int>, effect: Effect, cut: int, now: int, start: int)
    requires cut <= start && Agrees(b, key, history, start)
    ensures Agrees(Apply(b, effect, cut, now), key, if effect == AppendedKey(key) then history + [now] else history,
                   start)
  {
    match effect
    case Untouched =>
    case PrunedKey(other) => PrunedAgrees(b, key, history, other, cut, start);
    case AppendedKey(other) => AppendedAgrees(b, key, history, other, cut, now, start);
  }

  lemma ApplyKeepsNonEmpty(b: Buckets, effect: Effect, cut: int, now: int)
    requires NoEmptyBucket(b)
    ensures NoEmptyBucket(Apply(b, effect, cut, now))
  {
  }

  /** The compaction of buckets never leaves an empty one behind. */
  lemma {:induction false} NoBucketIsEmpty(cfg: Config, ops: seq<Op>, table: Table)
    ensures NoEmptyBucket(Bucket(Run(cfg, ops), table))
  {
    if ops != [] {
      var front, op := ops[..|ops| - 1], ops[|ops| - 1];
      NoBucketIsEmpty(cfg, front, table);
      var s := Run(cfg, front);
      StepEffect(cfg, s, op, table);
      ApplyKeepsNonEmpty(Bucket(s, table), EffectOf(cfg, s, op, table), op.now - Window(cfg, table), op.now);
    }
  }

  lemma StepAgrees(cfg: Config, s: State, op: Op, table: Table, key: string, history: seq<int>, start: int)
    requires op.now - Window(cfg, table) <= start && Agrees(Bucket(s, table), key, history, start)
    ensures var (next, outcome) := Step(cfg, s, op);
            Agrees(Bucket(next, table), key, if Counts(outcome, op, table, key) then history + [op.now] else history,
                   start)
  {
    StepEffect(cfg, s, op, table);
    ApplyAgrees(Bucket(s, table), key, history, EffectOf(cfg, s, op, table), op.now - Window(cfg, table), op.now,
                start);
  }

  lemma OneMoreCall(cfg: Config, front: seq<Op>, op: Op, table: Table, key: string, start: int)
    requires op.now - Window(cfg, table) <= start
    requires Agrees(Bucket(Run(cfg, front), table), key, History(cfg, front, table, key), start)
    ensures Agrees(Bucket(Run(cfg, front + [op]), table), key, History(cfg, front + [op], table, key), start)
  {
    StepAgrees(cfg, Run(cfg, front), op, table, key, History(cfg, front, table, key), start);
    RunSnoc(cfg, front, op);
    HistorySnoc(cfg, front, op, table, key);
  }

  /** A bucket that has been compacted in place any number of times answers
      every later question as the full history of the key would. */
  lemma {:induction false} BucketsAnswerAsHistory(cfg: Config, ops: seq<Op>, table: Table, key: string, start: int)
    requires forall i :: 0 <= i < |ops| ==> ops[i].now - Window(cfg, table) <= start
    ensures Agrees(Bucket(Run(cfg, ops), table), key, History(cfg, ops, table, key), start)
  {
    if ops != [] {
      var n := |ops| - 1;
      BucketsAnswerAsHistory(cfg, ops[..n], table, key, start);
      OneMoreCall(cfg, ops[..n], ops[n], table, key, start);
      assert ops[..n] + [ops[n]] == ops;
    }
  }

  // ----- the issuance limit

  function CountWithin(times: seq<int>, first: int, last: int): nat {
    if times == [] then 0
    else CountWithin(times[..|times| - 1], first, last) + if first <= times[|times| - 1] <= last then 1 else 0
  }

  predicate Sorted(times: seq<int>) {
    forall i, j :: 0 <= i < j < |times| ==> times[i] <= times[j]
  }

  /** The time at i was added while fewer than `limit` earlier ones were in the
      window before it. */
  predicate Room(times: seq<int>, i: int, window: int, limit: int) {
    0 <= i < |times| ==> |Since(times[..i], times[i] - window)| < limit
  }

  predicate Admitted(times: seq<int>, window: int, limit: int) {
    forall i :: 0 <= i < |times| ==> Room(times, i, window, limit)
  }

  lemma {:induction false} CountIsAtMostSince(times: seq<int>, first: int, last: int, start: int)
    requires start <= first
    ensures CountWithin(times, first, last) <= |Since(times, start)|
  {
    if times != [] {
      CountIsAtMostSince(times[..|times| - 1], first, last, start);
    }
  }

  lemma AdmittedPrefix(times: seq<int>, window: int, limit: int)
    requires times != [] && Admitted(times, window, limit)
    ensures Admitted(times[..|times| - 1], window, limit)
    ensures |Since(times[..|times| - 1], times[|times| - 1] - window)| < limit
  {
    var front := times[..|times| - 1];
    forall i | 0 <= i < |front| ensures Room(front, i, window, limit) {
      assert Room(times, i, window, limit) && front[..i] == times[..i];
    }
    assert Room(times, |times| - 1, window, limit);
  }

  lemma AdmittedSnoc(times: seq<int>, t: int, window: int, limit: int)
    requires Sorted(times) && Admitted(times, window, limit)
    requires |Since(times, t - window)| < limit
    requires forall i :: 0 <= i < |times| ==> times[i] <= t
    ensures Sorted(times + [t]) && Admitted(times + [t], window, limit)
  {
    var all := times + [t];
    forall i | 0 <= i < |all| ensures Room(all, i, window, limit) {
      if i < |times| {
        assert Room(times, i, window, limit) && all[..i] == times[..i];
      } else {
        assert all[..i] == times;
      }
    }
  }

  /** No closed interval as long as the window holds more than the limit. */
  lemma {:induction false} WindowLimit(times: seq<int>, window: int, limit: int, first: int)
    requires Sorted(times) && Admitted(times, window, limit) && limit > 0
    ensures CountWithin(times, first, first + window) <= limit
  {
    if times != [] {
      var n := |times| - 1;
      AdmittedPrefix(times, window, limit);
      WindowLimit(times[..n], window, limit, first);
      if first <= times[n] <= first + window {
        CountIsAtMostSince(times[..n], first, first + window, times[n] - window);
      }
    }
  }

  function Limit(cfg: Config, table: Table): int {
    match table
    case Users => cfg.userLimit
    case Sessions => cfg.sessionLimit
    case Sources => cfg.sourceFailureLimit
  }

  lemma {:induction false} HistoryBounded(cfg: Config, ops: seq<Op>, table: Table, key: string, now: int)
    requires forall i :: 0 <= i < |ops| ==> ops[i].now <= now
    ensures forall i :: 0 <= i < |History(cfg, ops, table, key)| ==> History(cfg, ops, table, key)[i] <= now
  {
    if ops != [] {
      HistoryBounded(cfg, ops[..|ops| - 1], table, key, now);
    }
  }

  lemma {:induction false} IssuesAreAdmitted(cfg: Config, ops: seq<Op>, table: Table, key: string)
    requires ClockOrdered(ops) && table != Sources
    ensures Sorted(History(cfg, ops, table, key))
    ensures Admitted(History(cfg, ops, table, key), cfg.issuanceWindow, Limit(cfg, table))
  {
    if ops != [] {
      var n := |ops| - 1;
      IssuesAreAdmitted(cfg, ops[..n], table, key);
      AdmittedAfter(cfg, ops[..n], ops[n], table, key);
      assert ops[..n] + [ops[n]] == ops;
    }
  }

  lemma AdmittedAfter(cfg: Config, front: seq<Op>, op: Op, table: Table, key: string)
    requires table != Sources && forall i :: 0 <= i < |front| ==> front[i].now <= op.now
    requires Sorted(History(cfg, front, table, key))
    requires Admitted(History(cfg, front, table, key), cfg.issuanceWindow, Limit(cfg, table))
    ensures Sorted(History(cfg, front + [op], table, key))
    ensures Admitted(History(cfg, front + [op], table, key), cfg.issuanceWindow, Limit(cfg, table))
  {
    IssuesAddUnderLimit(cfg, front, op, table, key);
    if History(cfg, front + [op], table, key) != History(cfg, front, table, key) {
      OneMoreIssue(cfg, front, op.now, table, key);
    }
  }

  lemma IssuesAddUnderLimit(cfg: Config, front: seq<Op>, op: Op, table: Table, key: string)
    requires table != Sources
    ensures var h, after := History(cfg, front, table, key), History(cfg, front + [op], table, key);
            || after == h
            || (&& after == h + [op.now]
                && |Recent(Bucket(Run(cfg, front), table), key, op.now - cfg.issuanceWindow)| < Limit(cfg, table))
  {
    HistorySnoc(cfg, front, op, table, key);
    if Counts(Step(cfg, Run(cfg, front), op).1, op, table, key) {
      IssuedUnderLimit(cfg, Run(cfg, front), op, table, key);
    }
  }

  lemma OneMoreIssue(cfg: Config, front: seq<Op>, now: int, table: Table, key: string)
    requires table != Sources
    requires |Recent(Bucket(Run(cfg, front), table), key, now - cfg.issuanceWindow)| < Limit(cfg, table)
    requires forall i :: 0 <= i < |front| ==> front[i].now <= now
    requires Sorted(History(cfg, front, table, key))
    requires Admitted(History(cfg, front, table, key), cfg.issuanceWindow, Limit(cfg, table))
    ensures var h := History(cfg, front, table, key) + [now];
            Sorted(h) && Admitted(h, cfg.issuanceWindow, Limit(cfg, table))
  {
    BucketsAnswerAsHistory(cfg, front, table, key, now - cfg.issuanceWindow);
    HistoryBounded(cfg, front, table, key, now);
    AdmittedSnoc(History(cfg, front, table, key), now, cfg.issuanceWindow, Limit(cfg, table));
  }

  lemma IssuedUnderLimit(cfg: Config, s: State, op: Op, table: Table, key: string)
    requires table != Sources && Counts(Step(cfg, s, op).1, op, table, key)
    ensures |Recent(Bucket(s, table), key, op.now - cfg.issuanceWindow)| < Limit(cfg, table)
  {
  }

  /** With a clock that never goes back, no user and no browser session gets
      more than its limit of credentials in any interval of window length. */
  lemma IssuanceLimitHolds(cfg: Config, ops: seq<Op>, table: Table, key: string, first: int)
    requires cfg.Positive() && ClockOrdered(ops) && table != Sources
    ensures CountWithin(History(cfg, ops, table, key), first, first + cfg.issuanceWindow) <= Limit(cfg, table)
  {
    IssuesAreAdmitted(cfg, ops, table, key);
    WindowLimit(History(cfg, ops, table, key), cfg.issuanceWindow, Limit(cfg, table), first);
  }

  /** A credential is issued exactly when the user and the browser session each
      have fewer than their limit of issues in the window, counted over the whole
      history, and both tokens could be drawn. It is then what was drawn, for as
      long as configured. */
  lemma IssueIff(cfg: Config, ops: seq<Op>, user: User, session: string, token: Option<string>, secret: Option<Bytes>,
                 now: int)
    requires forall i :: 0 <= i < |ops| ==> ops[i].now <= now
    ensures var outcome := Step(cfg, Run(cfg, ops), Issue(user, session, token, secret, now)).1;
            var start := now - cfg.issuanceWindow;
            var room := && |Since(History(cfg, ops, Users, user.id), start)| < cfg.userLimit
                        && |Since(History(cfg, ops, Sessions, session), start)| < cfg.sessionLimit;
            && (outcome.Issued? <==> room && token.Some? && secret.Some?)
            && (outcome.Issued? ==> outcome == Issued(token.value, secret.value, now + cfg.ttl))
            && (outcome.IssuanceRateLimited? <==> !room)
            && (outcome.RandomFailed? <==> room && (token.None? || secret.None?))
  {
    BucketsAnswerAsHistory(cfg, ops, Users, user.id, now - cfg.issuanceWindow);
    BucketsAnswerAsHistory(cfg, ops, Sessions, session, now - cfg.issuanceWindow);
  }

  // ----- single use, expiry, lockout

  /** The latest credential issued under a name and not yet consumed, with the
      failures recorded against it. */
  datatype Live = Live(user: User, password: Bytes, issuedAt: int, failures: nat)

  function LiveAfter(live: Option<Live>, op: Op, outcome: Outcome, username: string): Option<Live> {
    match op
    case Issue(user, _, token, secret, now) =>
      if outcome.Issued? && token == Some(username) && secret.Some? then Some(Live(user, secret.value, now, 0))
      else live
    case Consume(name, _) => if name == username && outcome.Consumed? then None else live
    case Fail(name, _, _) =>
      if name == username && live.Some? then Some(live.value.(failures := live.value.failures + 1)) else live
    case Lookup(_, _, _) => live
  }

  function LiveIn(cfg: Config, ops: seq<Op>, username: string): Option<Live> {
    if ops == [] then None
    else
      var front, op := ops[..|ops| - 1], ops[|ops| - 1];
      LiveAfter(LiveIn(cfg, front, username), op, Step(cfg, Run(cfg, front), op).1, username)
  }

  predicate Usable(cfg: Config, live: Option<Live>, now: int) {
    live.Some? && now < live.value.issuedAt + cfg.ttl && live.value.failures < cfg.credentialFailureLimit
  }

  /** The stored entry says what the history says; a missing entry was consumed
      or had expired by `clock`. */
  predicate Reflects(cfg: Config, credentials: map<string, Entry>, username: string, live: Option<Live>, clock: int) {
    if username in credentials then
      var e := credentials[username];
      && live.Some?
      && e.user == live.value.user
      && e.expiresAt == live.value.issuedAt + cfg.ttl
      && e.failures == live.value.failures
      && (e.locked <==> live.value.failures >= cfg.credentialFailureLimit)
      && (!e.locked ==> e.password == live.value.password)
    else
      live.Some? ==> live.value.issuedAt + cfg.ttl <= clock
  }

  lemma StepReflects(cfg: Config, s: State, op: Op, username: string, live: Option<Live>, clock: int)
    requires cfg.Positive() && clock <= op.now
    requires Reflects(cfg, s.credentials, username, live, clock)
    ensures var (next, outcome) := Step(cfg, s, op);
            Reflects(cfg, next.credentials, username, LiveAfter(live, op, outcome, username), op.now)
  {
  }

  lemma {:induction false} StoreReflectsHistory(cfg: Config, ops: seq<Op>, username: string, clock: int)
    requires cfg.Positive() && ClockOrdered(ops)
    requires forall i :: 0 <= i < |ops| ==> ops[i].now <= clock
    ensures Reflects(cfg, Run(cfg, ops).credentials, username, LiveIn(cfg, ops, username), clock)
  {
    if ops != [] {
      var front, op := ops[..|ops| - 1], ops[|ops| - 1];
      StoreReflectsHistory(cfg, front, username, op.now);
      StepReflects(cfg, Run(cfg, front), op, username, LiveIn(cfg, front, username), op.now);
    }
  }

  /** A credential can be consumed exactly when it is the latest issued under
      its name, has not been consumed, has not expired, and has fewer failures
      than the limit; the user is then the one it was issued to. One that would
      be usable but for its failures is reported as locked. */
  lemma ConsumeIff(cfg: Config, ops: seq<Op>, username: string, now: int)
    requires cfg.Positive() && ClockOrdered(ops)
    requires forall i :: 0 <= i < |ops| ==> ops[i].now <= now
    ensures var live, outcome := LiveIn(cfg, ops, username), Step(cfg, Run(cfg, ops), Consume(username, now)).1;
            && (outcome.Consumed? <==> Usable(cfg, live, now))
            && (outcome.Consumed? ==> outcome.consumer == live.value.user)
            && (outcome.Locked? <==>
                  && live.Some? && now < live.value.issuedAt + cfg.ttl
                  && live.value.failures >= cfg.credentialFailureLimit)
            && (live.None? ==> outcome.NotFound?)
  {
    StoreReflectsHistory(cfg, ops, username, now);
  }

  /** Verifier material is handed out exactly when the credential could be
      consumed and the source has fewer recent failures than its limit; the
      material is the password that was issued. */
  lemma LookupIff(cfg: Config, ops: seq<Op>, username: string, source: string, now: int)
    requires cfg.Positive() && ClockOrdered(ops)
    requires forall i :: 0 <= i < |ops| ==> ops[i].now <= now
    ensures var live := LiveIn(cfg, ops, username);
            var outcome := LookupStep(cfg, Run(cfg, ops), Lookup(username, source, now)).1;
            var recent := Since(History(cfg, ops, Sources, source), now - cfg.sourceFailureWindow);
            && (outcome.Pending? <==> Usable(cfg, live, now) && |recent| < cfg.sourceFailureLimit)
            && (outcome.Pending? ==>
                  && outcome.material == live.value.password && outcome.owner == live.value.user
                  && outcome.expires == live.value.issuedAt + cfg.ttl)
            && (outcome.SourceRateLimited? <==> |recent| >= cfg.sourceFailureLimit)
  {
    StoreReflectsHistory(cfg, ops, username, now);
    BucketsAnswerAsHistory(cfg, ops, Sources, source, now - cfg.sourceFailureWindow);
    LookupReflects(cfg, Run(cfg, ops), username, source, now, LiveIn(cfg, ops, username));
  }

  lemma LookupReflects(cfg: Config, s: State, username: string, source: string, now: int, live: Option<Live>)
    requires cfg.Positive() && Reflects(cfg, s.credentials, username, live, now)
    ensures var outcome := LookupStep(cfg, s, Lookup(username, source, now)).1;
            var recent := Recent(s.sources, source, now - cfg.sourceFailureWindow);
            && (outcome.Pending? <==> Usable(cfg, live, now) && |recent| < cfg.sourceFailureLimit)
            && (outcome.Pending? ==>
                  && outcome.material == live.value.password && outcome.owner == live.value.user
                  && outcome.expires == live.value.issuedAt + cfg.ttl)
            && (outcome.SourceRateLimited? <==> |recent| >= cfg.sourceFailureLimit)
  {
  }

  lemma LiveStep(cfg: Config, ops: seq<Op>, username: string, j: nat)
    requires 0 < j <= |ops|
    ensures LiveIn(cfg, ops[..j], username) ==
            LiveAfter(LiveIn(cfg, ops[..j - 1], username), ops[j - 1], OutcomeAt(cfg, ops, j - 1), username)
  {
    assert ops[..j][..j - 1] == ops[..j - 1];
  }

  /** The call at i issued a credential under the name. */
  predicate IssuedAt(cfg: Config, ops: seq<Op>, username: string, i: nat)
    requires i < |ops|
  {
    ops[i].Issue? && ops[i].token == Some(username) && OutcomeAt(cfg, ops, i).Issued?
  }

  lemma OnlyIssueRevives(live: Option<Live>, op: Op, outcome: Outcome, username: string)
    requires live.None? || (op.Consume? && op.username == username && outcome.Consumed?)
    requires !(op.Issue? && op.token == Some(username) && outcome.Issued?)
    ensures LiveAfter(live, op, outcome, username) == None
  {
  }

  lemma {:induction false} NotLiveUntilIssued(cfg: Config, ops: seq<Op>, username: string, i: nat, j: nat)
    requires i < j <= |ops|
    requires ops[i].Consume? && ops[i].username == username && OutcomeAt(cfg, ops, i).Consumed?
    requires forall k :: i < k < j ==> !IssuedAt(cfg, ops, username, k)
    ensures LiveIn(cfg, ops[..j], username) == None
    decreases j
  {
    LiveStep(cfg, ops, username, j);
    if j > i + 1 {
      NotLiveUntilIssued(cfg, ops, username, i, j - 1);
      assert !IssuedAt(cfg, ops, username, j - 1);
    }
    OnlyIssueRevives(LiveIn(cfg, ops[..j - 1], username), ops[j - 1], OutcomeAt(cfg, ops, j - 1), username);
  }

  /** Between two uses of the same name it was issued anew. */
  lemma OneUsePerIssue(cfg: Config, ops: seq<Op>, username: string, i: nat, j: nat)
    requires cfg.Positive() && ClockOrdered(ops) && i < j < |ops|
    requires ops[i].Consume? && ops[i].username == username && OutcomeAt(cfg, ops, i).Consumed?
    requires ops[j].Consume? && ops[j].username == username && OutcomeAt(cfg, ops, j).Consumed?
    ensures exists k :: i < k < j && IssuedAt(cfg, ops, username, k)
  {
    if forall k :: i < k < j ==> !IssuedAt(cfg, ops, username, k) {
      NotLiveUntilIssued(cfg, ops, username, i, j);
      ConsumeIff(cfg, ops[..j], username, ops[j].now);
    }
  }
}
