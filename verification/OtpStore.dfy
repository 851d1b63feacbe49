/**
 The store itself: credentials are objects whose counters and password bytes
 change in place, and a bucket of times is a slice of an array that is
 compacted in place and appended to.
 */
module OtpStore {
  import opened Common
  import opened Otp

  // ----- buckets

  /** A Go slice from the start of its backing array. */
  datatype Slice = Slice(buf: array<int>, len: nat)

  /** The times not before start move to the front of the array, in order. */
  method Compact(buf: array<int>, len: nat, start: int) returns (n: nat)
    requires len <= buf.Length
    modifies buf
    ensures n <= len
    ensures buf[..n] == Since(old(buf[..len]), start)
  {
    n := 0;
    var i := 0;
    while i < len
      invariant n <= i <= len
      invariant buf[..n] == Since(old(buf[..i]), start)
      invariant buf[i..len] == old(buf[i..len])
    {
      assert buf[i] == old(buf[i]);
      SinceSnoc(old(buf[..i]), old(buf[i]), start);
      assert old(buf[..i + 1]) == old(buf[..i]) + [old(buf[i])];
      if buf[i] >= start {
        buf[n] := buf[i];
        n := n + 1;
      }
      i := i + 1;
    }
  }

  /** append(buf[..len], now): in place while the array has room, otherwise
      into a larger copy. */
  method Append(buf: array<int>, len: nat, now: int) returns (grown: array<int>)
    requires len <= buf.Length
    modifies buf
    ensures len < grown.Length && grown[..len + 1] == old(buf[..len]) + [now]
    ensures grown == buf || fresh(grown)
  {
    grown := buf;
    if len == buf.Length {
      grown := new int[2 * len + 1];
      for i := 0 to len
        modifies grown
        invariant grown[..i] == buf[..i]
      {
        grown[i] := buf[i];
      }
    }
    grown[len] := now;
    assert grown[..len + 1] == grown[..len] + [now];
  }

  class TimeBuckets {
    var slices: map<string, Slice>
    ghost var lists: Buckets
    ghost var Repr: set<object>

    constructor ()
      ensures Valid() && lists == map[] && fresh(Repr)
    {
      slices, lists := map[], map[];
      Repr := {this};
    }

    ghost predicate Holds(key: string)
      reads this, Repr
    {
      && key in slices && key in lists
      && slices[key].buf in Repr
      && slices[key].len <= slices[key].buf.Length
      && lists[key] == slices[key].buf[..slices[key].len]
    }

    ghost predicate Apart(j: string, k: string)
      reads this
    {
      j in slices && k in slices && j != k ==> slices[j].buf != slices[k].buf
    }

    /** Every bucket but one is in order, and no two share an array. */
    ghost predicate ValidBut(key: string)
      reads this, Repr
    {
      && this in Repr
      && lists.Keys == slices.Keys
      && (forall k {:trigger Holds(k)} :: k in slices && k != key ==> Holds(k))
      && (forall j, k {:trigger Apart(j, k)} :: Apart(j, k))
    }

    ghost predicate Valid()
      reads this, Repr
    {
      && this in Repr
      && lists.Keys == slices.Keys
      && (forall k {:trigger Holds(k)} :: k in slices ==> Holds(k))
      && (forall j, k {:trigger Apart(j, k)} :: Apart(j, k))
    }

    /** buckets[key] = slice */
    method Install(key: string, buf: array<int>, len: nat)
      requires ValidBut(key) && len <= buf.Length
      requires forall k :: k in slices && k != key ==> slices[k].buf != buf
      modifies this
      ensures Valid() && Repr == old(Repr) + {buf}
      ensures lists == old(lists)[key := buf[..len]]
    {
      slices := slices[key := Slice(buf, len)];
      lists := lists[key := buf[..len]];
      Repr := Repr + {buf};
      forall k | k in slices && k != key ensures Holds(k) {
        assert old(Holds(k));
      }
      forall j, k ensures Apart(j, k) {
        assert old(Apart(j, k));
      }
    }

    method Delete(key: string)
      requires ValidBut(key)
      modifies this
      ensures Valid() && Repr == old(Repr)
      ensures lists == old(lists) - {key}
    {
      slices := slices - {key};
      lists := lists - {key};
      forall k | k in slices ensures Holds(k) {
        assert old(Holds(k));
      }
      forall j, k ensures Apart(j, k) {
        assert old(Apart(j, k));
      }
    }

    /** recentIssuanceLocked and recentSourceFailuresLocked: the number of times
        kept; the bucket is compacted, or dropped when nothing is kept. */
    method KeepRecent(key: string, start: int) returns (n: nat)
      requires Valid()
      modifies Repr
      ensures Valid() && Repr == old(Repr)
      ensures lists == Pruned(old(lists), key, start)
      ensures n == |Recent(old(lists), key, start)|
    {
      if key !in slices {
        return 0;
      }
      var slice := slices[key];
      assert Holds(key);
      n := Compact(slice.buf, slice.len, start);
      forall k | k in slices && k != key ensures Holds(k) && slices[k].buf != slice.buf {
        assert old(Holds(k)) && old(Apart(key, k));
      }
      if n == 0 {
        Delete(key);
      } else {
        Install(key, slice.buf, n);
      }
    }

    /** buckets[key] = append(recent times, now) */
    method KeepRecentAndAppend(key: string, start: int, now: int)
      requires Valid()
      modifies Repr
      ensures Valid() && fresh(Repr - old(Repr))
      ensures lists == Appended(old(lists), key, start, now)
    {
      var n := KeepRecent(key, start);
      Push(key, now);
    }

    method Push(key: string, now: int)
      requires Valid()
      modifies Repr
      ensures Valid() && fresh(Repr - old(Repr))
      ensures lists == old(lists)[key := (if key in old(lists) then old(lists)[key] else []) + [now]]
    {
      forall k | k in slices ensures slices[k].buf in Repr {
        assert Holds(k);
      }
      if key in slices {
        var slice := slices[key];
        assert Holds(key);
        var grown := Append(slice.buf, slice.len, now);
        forall k | k in slices && k != key ensures Holds(k) && slices[k].buf != slice.buf {
          assert old(Holds(k)) && old(Apart(key, k));
        }
        Install(key, grown, slice.len + 1);
      } else {
        var first := new int[] [now];
        assert first[..1] == [] + [now];
        Install(key, first, 1);
      }
    }
  }

  // ----- credentials

  class StoredCredential {
    var user: User
    var password: array<byte>
    var expiresAt: int
    var failures: nat
    var locked: bool

    constructor (user: User, password: array<byte>, expiresAt: int)
      ensures this.user == user && this.password == password && this.expiresAt == expiresAt && failures == 0 && !locked
    {
      this.user, this.password, this.expiresAt := user, password, expiresAt;
      failures, locked := 0, false;
    }

    function Contents(): Entry
      reads this, password
    {
      Entry(user, password[..], expiresAt, failures, locked)
    }

    method CountFailure(cfg: Config)
      modifies this, password
      ensures Contents() == Failed(cfg, old(Contents())) && password == old(password)
    {
      failures := failures + 1;
      if failures >= cfg.credentialFailureLimit {
        locked := true;
        ClearBytes(password);
      }
    }
  }

  method ClearBytes(bytes: array<byte>)
    modifies bytes
    ensures bytes[..] == Cleared(old(bytes[..]))
  {
    var i := 0;
    while i < bytes.Length
      invariant 0 <= i <= bytes.Length
      invariant forall k :: 0 <= k < i ==> bytes[k] == 0
    {
      bytes[i] := 0;
      i := i + 1;
    }
  }

  method CopyBytes(s: Bytes) returns (a: array<byte>)
    ensures fresh(a) && a[..] == s
  {
    a := new byte[|s|](i requires 0 <= i < |s| => s[i]);
  }

  // ----- configuration

  /** NewStore replaces every setting that is not positive; durations are in
      nanoseconds. */
  function WithDefaults(c: Config): (r: Config)
    ensures r.Positive()
    ensures c.ttl > 0 ==> r.ttl == c.ttl
    ensures c.credentialFailureLimit > 0 ==> r.credentialFailureLimit == c.credentialFailureLimit
    ensures c.sourceFailureLimit > 0 ==> r.sourceFailureLimit == c.sourceFailureLimit
    ensures c.sourceFailureWindow > 0 ==> r.sourceFailureWindow == c.sourceFailureWindow
    ensures c.userLimit > 0 ==> r.userLimit == c.userLimit
    ensures c.sessionLimit > 0 ==> r.sessionLimit == c.sessionLimit
    ensures c.issuanceWindow > 0 ==> r.issuanceWindow == c.issuanceWindow
    ensures c.ttl <= 0 ==> r.ttl == DEFAULTS.ttl
    ensures c.credentialFailureLimit <= 0 ==> r.credentialFailureLimit == DEFAULTS.credentialFailureLimit
    ensures c.sourceFailureLimit <= 0 ==> r.sourceFailureLimit == DEFAULTS.sourceFailureLimit
    ensures c.sourceFailureWindow <= 0 ==> r.sourceFailureWindow == DEFAULTS.sourceFailureWindow
    ensures c.userLimit <= 0 ==> r.userLimit == DEFAULTS.userLimit
    ensures c.sessionLimit <= 0 ==> r.sessionLimit == DEFAULTS.sessionLimit
    ensures c.issuanceWindow <= 0 ==> r.issuanceWindow == DEFAULTS.issuanceWindow
  {
    Config(
      if c.ttl <= 0 then TEN_MINUTES else c.ttl,
      if c.credentialFailureLimit <= 0 then 5 else c.credentialFailureLimit,
      if c.sourceFailureLimit <= 0 then 20 else c.sourceFailureLimit,
      if c.sourceFailureWindow <= 0 then TEN_MINUTES else c.sourceFailureWindow,
      if c.userLimit <= 0 then 10 else c.userLimit,
      if c.sessionLimit <= 0 then 5 else c.sessionLimit,
      if c.issuanceWindow <= 0 then TEN_MINUTES else c.issuanceWindow)
  }

  const TEN_MINUTES := 600_000_000_000

  /** The settings of an empty configuration. */
  const DEFAULTS := Config(600_000_000_000, 5, 20, 600_000_000_000, 10, 5, 600_000_000_000)

  // ----- the stored credentials

  class CredentialTable {
    var credentials: map<string, StoredCredential>
    ghost var entries: map<string, Entry>
    ghost var Repr: set<object>

    constructor ()
      ensures Valid() && entries == map[] && fresh(Repr)
    {
      credentials, entries := map[], map[];
      Repr := {this};
    }

    ghost predicate Holds(username: string)
      reads this, Repr
    {
      && username in credentials && username in entries
      && credentials[username] in Repr && credentials[username].password in Repr
      && credentials[username].Contents() == entries[username]
    }

    ghost predicate Apart(u: string, v: string)
      reads this, credentials.Values
    {
      u in credentials && v in credentials && u != v ==>
        credentials[u] != credentials[v] && credentials[u].password != credentials[v].password
    }

    ghost predicate Valid()
      reads this, Repr
    {
      && this in Repr && credentials.Values <= Repr
      && entries.Keys == credentials.Keys
      && (forall u {:trigger Holds(u)} :: u in credentials ==> Holds(u))
      && (forall u, v {:trigger Apart(u, v)} :: Apart(u, v))
    }

    method Put(username: string, user: User, secret: Bytes, expiresAt: int)
      requires Valid()
      modifies this
      ensures Valid() && fresh(Repr - old(Repr))
      ensures entries == old(entries)[username := Entry(user, secret, expiresAt, 0, false)]
    {
      var password := CopyBytes(secret);
      var credential := new StoredCredential(user, password, expiresAt);
      credentials := credentials[username := credential];
      entries := entries[username := Entry(user, secret, expiresAt, 0, false)];
      Repr := Repr + {credential, password};
      forall u | u in credentials && u != username ensures Holds(u) {
        assert old(Holds(u));
      }
      forall u, v ensures Apart(u, v) {
        assert old(Apart(u, v)) && old(u in credentials ==> Holds(u)) && old(v in credentials ==> Holds(v));
      }
    }

    /** The password is cleared and the entry deleted. */
    method Drop(username: string)
      requires Valid() && username in credentials
      modifies Repr
      ensures Valid() && Repr == old(Repr)
      ensures entries == old(entries) - {username}
      ensures old(credentials[username].password)[..] == Cleared(old(credentials[username].password[..]))
    {
      assert Holds(username);
      ClearBytes(credentials[username].password);
      credentials := credentials - {username};
      entries := entries - {username};
      forall u | u in credentials ensures Holds(u) {
        assert old(Holds(u)) && old(Apart(u, username));
      }
      forall u, v ensures Apart(u, v) {
        assert old(Apart(u, v));
      }
    }

    method CountFailure(cfg: Config, username: string)
      requires Valid() && username in credentials
      modifies Repr
      ensures Valid() && Repr == old(Repr)
      ensures entries == old(entries)[username := Failed(cfg, old(entries)[username])]
    {
      assert Holds(username);
      var credential := credentials[username];
      credential.CountFailure(cfg);
      entries := entries[username := credential.Contents()];
      forall u | u in credentials && u != username ensures Holds(u) {
        assert old(Holds(u)) && old(Apart(u, username));
      }
      forall u, v ensures Apart(u, v) {
        assert old(Apart(u, v)) && old(u in credentials ==> Holds(u)) && old(v in credentials ==> Holds(v));
      }
    }
  }

  // ----- the store

  class Store {
    const cfg: Config
    const credentials: CredentialTable
    const sources: TimeBuckets
    const userIssues: TimeBuckets
    const sessionIssues: TimeBuckets

    constructor (c: Config)
      ensures cfg == WithDefaults(c) && Valid() && fresh(Footprint()) && Contents() == EMPTY
    {
      cfg := WithDefaults(c);
      credentials := new CredentialTable();
      sources := new TimeBuckets();
      userIssues := new TimeBuckets();
      sessionIssues := new TimeBuckets();
    }

    ghost function Footprint(): set<object>
      reads credentials, sources, userIssues, sessionIssues
    {
      credentials.Repr + sources.Repr + userIssues.Repr + sessionIssues.Repr
    }

    ghost function Contents(): State
      reads credentials, sources, userIssues, sessionIssues
    {
      State(credentials.entries, sources.lists, userIssues.lists, sessionIssues.lists)
    }

    ghost predicate Valid()
      reads credentials, sources, userIssues, sessionIssues, Footprint()
    {
      && credentials.Valid() && sources.Valid() && userIssues.Valid() && sessionIssues.Valid()
      && credentials.Repr !! sources.Repr !! userIssues.Repr !! sessionIssues.Repr
    }

    method Issue(user: User, session: string, token: Option<string>, secret: Option<Bytes>, now: int)
      returns (outcome: Outcome)
      requires Valid()
      modifies Footprint()
      ensures Valid() && fresh(Footprint() - old(Footprint()))
      ensures (Contents(), outcome) == Step(cfg, old(Contents()), Otp.Issue(user, session, token, secret, now))
    {
      var limited := IssuanceLimited(user, session, now);
      if limited {
        return IssuanceRateLimited;
      }
      if token.None? {
        return RandomFailed;
      }
      if secret.None? {
        return RandomFailed;
      }
      Grant(user, session, token.value, secret.value, now);
      return Issued(token.value, secret.value, now + cfg.ttl);
    }

    method IssuanceLimited(user: User, session: string, now: int) returns (limited: bool)
      requires Valid()
      modifies userIssues.Repr, sessionIssues.Repr
      ensures Valid() && Footprint() == old(Footprint())
      ensures (Contents(), limited) == Throttled(cfg, old(Contents()), user.id, session, now)
    {
      var start := now - cfg.issuanceWindow;
      var n := userIssues.KeepRecent(user.id, start);
      if n >= cfg.userLimit {
        return true;
      }
      n := sessionIssues.KeepRecent(session, start);
      return n >= cfg.sessionLimit;
    }

    method Grant(user: User, session: string, username: string, password: Bytes, now: int)
      requires Valid()
      modifies Footprint()
      ensures Valid() && fresh(Footprint() - old(Footprint()))
      ensures Contents() == Granted(cfg, old(Contents()), user, session, username, password, now)
    {
      hide Appended;
      Put(user, username, password, now + cfg.ttl);
      RecordIssue(user.id, session, now);
    }

    method RecordIssue(userID: string, session: string, now: int)
      requires Valid()
      modifies userIssues.Repr, sessionIssues.Repr
      ensures Valid() && fresh(Footprint() - old(Footprint()))
      ensures credentials.entries == old(credentials.entries) && sources.lists == old(sources.lists)
      ensures userIssues.lists == Appended(old(userIssues.lists), userID, now - cfg.issuanceWindow, now)
      ensures sessionIssues.lists == Appended(old(sessionIssues.lists), session, now - cfg.issuanceWindow, now)
    {
      RecordUserIssue(userID, now);
      RecordSessionIssue(session, now);
    }

    method Put(user: User, username: string, password: Bytes, expiresAt: int)
      requires Valid()
      modifies credentials
      ensures Valid() && fresh(Footprint() - old(Footprint()))
      ensures credentials.entries == old(credentials.entries)[username := Entry(user, password, expiresAt, 0, false)]
    {
      credentials.Put(username, user, password, expiresAt);
    }

    method RecordUserIssue(userID: string, now: int)
      requires Valid()
      modifies userIssues.Repr
      ensures Valid() && fresh(Footprint() - old(Footprint()))
      ensures userIssues.lists == Appended(old(userIssues.lists), userID, now - cfg.issuanceWindow, now)
    {
      userIssues.KeepRecentAndAppend(userID, now - cfg.issuanceWindow, now);
    }

    method RecordSessionIssue(session: string, now: int)
      requires Valid()
      modifies sessionIssues.Repr
      ensures Valid() && fresh(Footprint() - old(Footprint()))
      ensures sessionIssues.lists == Appended(old(sessionIssues.lists), session, now - cfg.issuanceWindow, now)
    {
      sessionIssues.KeepRecentAndAppend(session, now - cfg.issuanceWindow, now);
    }

    /** The material is a fresh copy: whatever its holder does to it, the store
        is not affected. */
    method PendingCredential(username: string, source: string, now: int)
      returns (outcome: Outcome, material: array?<byte>)
      requires Valid()
      modifies Footprint()
      ensures Valid() && Footprint() == old(Footprint())
      ensures (Contents(), outcome) == Step(cfg, old(Contents()), Lookup(username, source, now))
      ensures outcome.Pending? <==> material != null
      ensures material != null ==> fresh(material) && material !in Footprint() && material[..] == outcome.material
    {
      var n := sources.KeepRecent(source, now - cfg.sourceFailureWindow);
      if n >= cfg.sourceFailureLimit {
        return SourceRateLimited, null;
      }
      outcome, material := Pend(username, now);
    }

    method Pend(username: string, now: int) returns (outcome: Outcome, material: array?<byte>)
      requires Valid()
      modifies credentials.Repr
      ensures Valid() && Footprint() == old(Footprint())
      ensures (Contents(), outcome) == Opened(old(Contents()), username, now)
      ensures outcome.Pending? <==> material != null
      ensures material != null ==> fresh(material) && material[..] == outcome.material
    {
      if username !in credentials.credentials {
        return NotFound, null;
      }
      assert credentials.Holds(username);
      var credential := credentials.credentials[username];
      if now >= credential.expiresAt {
        credentials.Drop(username);
        return Expired, null;
      }
      if credential.locked {
        return Locked, null;
      }
      material := CopyBytes(credential.password[..]);
      outcome := Pending(credential.user, credential.expiresAt, material[..]);
    }

    method Consume(username: string, now: int) returns (outcome: Outcome)
      requires Valid()
      modifies Footprint()
      ensures Valid() && Footprint() == old(Footprint())
      ensures (Contents(), outcome) == Step(cfg, old(Contents()), Otp.Consume(username, now))
    {
      if username !in credentials.credentials {
        return NotFound;
      }
      assert credentials.Holds(username);
      var credential := credentials.credentials[username];
      var user := credential.user;
      if now >= credential.expiresAt {
        credentials.Drop(username);
        return Expired;
      }
      if credential.locked {
        return Locked;
      }
      credentials.Drop(username);
      return Consumed(user);
    }

    method RecordSourceFailure(source: string, now: int)
      requires Valid()
      modifies sources.Repr
      ensures Valid() && fresh(Footprint() - old(Footprint()))
      ensures credentials.entries == old(credentials.entries)
      ensures sources.lists == Appended(old(sources.lists), source, now - cfg.sourceFailureWindow, now)
    {
      sources.KeepRecentAndAppend(source, now - cfg.sourceFailureWindow, now);
    }

    method RecordFailure(username: string, source: string, now: int) returns (outcome: Outcome)
      requires Valid()
      modifies Footprint()
      ensures Valid() && fresh(Footprint() - old(Footprint()))
      ensures (Contents(), outcome) == Step(cfg, old(Contents()), Fail(username, source, now))
    {
      RecordSourceFailure(source, now);
      if username in credentials.credentials {
        credentials.CountFailure(cfg, username);
      }
      return Recorded;
    }
  }

  /** GetCredential of the authentication handler: the password is copied out
      and the material cleared, which leaves the store as the lookup left it. */
  method GetCredential(store: Store, username: string, source: string, now: int)
    returns (password: Option<Bytes>, ghost outcome: Outcome)
    requires store.Valid()
    modifies store.Footprint()
    ensures store.Valid() && fresh(store.Footprint() - old(store.Footprint()))
    ensures (store.Contents(), outcome) == Step(store.cfg, old(store.Contents()), Lookup(username, source, now))
    ensures password == if outcome.Pending? then Some(outcome.material) else None
  {
    hide Step;
    var answer, material := store.PendingCredential(username, source, now);
    outcome := answer;
    if material == null {
      return None, answer;
    }
    password := Some(material[..]);
    ClearBytes(material);
  }
}
