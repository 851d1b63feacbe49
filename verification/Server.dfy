/**
 ServeContext as interleaved steps: the accept loop, the goroutine that waits
 for cancellation, and one handler for each connection that got a slot. They
 share a slot channel, a map of active connections under a mutex, a wait group
 and the listener. Connections are numbered in the order they were accepted.
 */
module Server {

  /** Where a connection is. Up to Counted and from Turned to Dropping it is the
      accept loop that holds it; then its handler does. */
  datatype Phase =
    | Arrived     // accepted, slot not yet tried
    | Slotted     // has a slot, waits for the mutex
    | Checking    // under the mutex, context not yet looked at
    | Admitted    // under the mutex, context was not cancelled
    | Listed      // under the mutex, in the active map
    | Unlocked    // in the active map, not yet in the wait group
    | Counted     // in the wait group, handler not yet started
    | Turned      // under the mutex, context was cancelled
    | GivingBack  // about to take its token out of the channel
    | Dropping    // about to be closed
    | Serving     // in ServeConn
    | Leaving     // ServeConn returned, waits for the mutex
    | Deleting    // under the mutex, still in the active map
    | Deleted     // under the mutex, out of the active map
    | Freeing     // about to take its token out of the channel
    | Finishing   // about to leave the wait group
    | Gone

  predicate WithAcceptor(p: Phase) {
    || p.Arrived? || p.Slotted? || p.Checking? || p.Admitted? || p.Listed? || p.Unlocked? || p.Counted?
    || p.Turned? || p.GivingBack? || p.Dropping?
  }

  predicate HoldsSlot(p: Phase) {
    !p.Arrived? && !p.Dropping? && !p.Finishing? && !p.Gone?
  }

  predicate HoldsLock(p: Phase) {
    p.Checking? || p.Admitted? || p.Listed? || p.Turned? || p.Deleting? || p.Deleted?
  }

  predicate IsActive(p: Phase) {
    p.Listed? || p.Unlocked? || p.Counted? || p.Serving? || p.Leaving? || p.Deleting?
  }

  predicate Waited(p: Phase) {
    p.Counted? || p.Serving? || p.Leaving? || p.Deleting? || p.Deleted? || p.Freeing? || p.Finishing?
  }

  /** Whoever holds the connection has closed it. */
  predicate IsClosed(p: Phase) {
    p.Leaving? || p.Deleting? || p.Deleted? || p.Freeing? || p.Finishing? || p.Gone?
  }

  datatype Owner = OfCanceller | OfConn(c: nat)
  datatype Lock = Free | Held(owner: Owner)

  datatype Acceptor = Accepting | Handling | Returning | WaitOver | Returned

  datatype Canceller =
    | Watching                 // in the select
    | Woken                    // saw the cancellation, waits for the mutex
    | Holding                  // under the mutex
    | Sweeping(todo: set<nat>) // listener closed, these still to be closed
    | Swept                    // mutex released
    | Dismissed                // saw that ServeContext is done

  datatype System = System(
    max: nat,
    conns: seq<Phase>,
    acceptor: Acceptor,
    canceller: Canceller,
    cancelled: bool,
    listening: bool,
    lock: Lock,
    slots: int,
    wg: int,
    active: set<nat>,
    closed: set<nat>)

  function Start(max: nat): System {
    System(max, [], Accepting, Watching, false, true, Free, 0, 0, {}, {})
  }

  datatype Action =
    | Cancel            // the context is cancelled
    | Accept            // Accept returns a connection
    | AcceptError       // Accept returns an error
    | Move(c: nat)      // the next step of whoever holds the connection
    | Wait              // wg.Wait returns
    | CloseDone         // close(done), ServeContext returns
    | Wake              // <-ctx.Done()
    | Dismiss           // <-done
    | TakeLock          // the canceller locks the mutex
    | CloseListener
    | CloseActive(c: nat)
    | DropLock

  predicate CanMove(s: System, c: nat)
    requires c < |s.conns|
  {
    match s.conns[c]
    case Slotted => s.lock == Free
    case Leaving => s.lock == Free
    case GivingBack => s.slots > 0
    case Freeing => s.slots > 0
    case Gone => false
    case _ => true
  }

  predicate Enabled(s: System, a: Action) {
    match a
    case Cancel => true
    case Accept => s.acceptor == Accepting && s.listening
    case AcceptError => s.acceptor == Accepting
    case Move(c) => c < |s.conns| && CanMove(s, c)
    case Wait => s.acceptor == Returning && s.wg == 0
    case CloseDone => s.acceptor == WaitOver
    case Wake => s.canceller == Watching && s.cancelled
    case Dismiss => s.canceller == Watching && s.acceptor == Returned
    case TakeLock => s.canceller == Woken && s.lock == Free
    case CloseListener => s.canceller == Holding
    case CloseActive(c) => s.canceller.Sweeping? && c in s.canceller.todo
    case DropLock => s.canceller == Sweeping({})
  }

  function Moved(s: System, c: nat): System
    requires c < |s.conns|
  {
    match s.conns[c]
    case Arrived =>
      if s.slots < s.max then s.(conns := s.conns[c := Slotted], slots := s.slots + 1)
      else s.(conns := s.conns[c := Gone], closed := s.closed + {c}, acceptor := Accepting)
    case Slotted => s.(conns := s.conns[c := Checking], lock := Held(OfConn(c)))
    case Checking => s.(conns := s.conns[c := if s.cancelled then Turned else Admitted])
    case Admitted => s.(conns := s.conns[c := Listed], active := s.active + {c})
    case Listed => s.(conns := s.conns[c := Unlocked], lock := Free)
    case Unlocked => s.(conns := s.conns[c := Counted], wg := s.wg + 1)
    case Counted => s.(conns := s.conns[c := Serving], acceptor := Accepting)
    case Turned => s.(conns := s.conns[c := GivingBack], lock := Free)
    case GivingBack => s.(conns := s.conns[c := Dropping], slots := s.slots - 1)
    case Dropping => s.(conns := s.conns[c := Gone], closed := s.closed + {c}, acceptor := Accepting)
    case Serving => s.(conns := s.conns[c := Leaving], closed := s.closed + {c})
    case Leaving => s.(conns := s.conns[c := Deleting], lock := Held(OfConn(c)))
    case Deleting => s.(conns := s.conns[c := Deleted], active := s.active - {c})
    case Deleted => s.(conns := s.conns[c := Freeing], lock := Free)
    case Freeing => s.(conns := s.conns[c := Finishing], slots := s.slots - 1)
    case Finishing => s.(conns := s.conns[c := Gone], wg := s.wg - 1)
    case Gone => s
  }

  function Next(s: System, a: Action): System
    requires Enabled(s, a)
  {
    match a
    case Cancel => s.(cancelled := true)
    case Accept => s.(conns := s.conns + [Arrived], acceptor := Handling)
    case AcceptError => s.(acceptor := Returning)
    case Move(c) => Moved(s, c)
    case Wait => s.(acceptor := WaitOver)
    case CloseDone => s.(acceptor := Returned)
    case Wake => s.(canceller := Woken)
    case Dismiss => s.(canceller := Dismissed)
    case TakeLock => s.(canceller := Holding, lock := Held(OfCanceller))
    case CloseListener => s.(canceller := Sweeping(s.active), listening := false)
    case CloseActive(c) => s.(canceller := Sweeping(s.canceller.todo - {c}), closed := s.closed + {c})
    case DropLock => s.(canceller := Swept, lock := Free)
  }

  /** The state after a schedule; an action that is not possible is skipped. */
  function After(max: nat, schedule: seq<Action>): System {
    if schedule == [] then Start(max)
    else
      var s, a := After(max, schedule[..|schedule| - 1]), schedule[|schedule| - 1];
      if Enabled(s, a) then Next(s, a) else s
  }

  // ----- counting

  function Count(conns: seq<Phase>, p: Phase -> bool): nat {
    if conns == [] then 0
    else Count(conns[..|conns| - 1], p) + if p(conns[|conns| - 1]) then 1 else 0
  }

  lemma {:induction false} CountUpdate(conns: seq<Phase>, c: nat, x: Phase, p: Phase -> bool)
    requires c < |conns|
    ensures Count(conns[c := x], p) == Count(conns, p) - (if p(conns[c]) then 1 else 0) + if p(x) then 1 else 0
  {
    var n := |conns| - 1;
    if c == n {
      assert conns[c := x][..n] == conns[..n];
    } else {
      assert conns[c := x][..n] == conns[..n][c := x];
      CountUpdate(conns[..n], c, x, p);
    }
  }

  lemma {:induction false} CountPositive(conns: seq<Phase>, c: nat, p: Phase -> bool)
    requires c < |conns| && p(conns[c])
    ensures Count(conns, p) > 0
  {
    if c < |conns| - 1 {
      CountPositive(conns[..|conns| - 1], c, p);
    }
  }

  lemma {:induction false} CountZero(conns: seq<Phase>, p: Phase -> bool)
    requires forall c :: 0 <= c < |conns| ==> !p(conns[c])
    ensures Count(conns, p) == 0
  {
    if conns != [] {
      CountZero(conns[..|conns| - 1], p);
    }
  }

  // ----- invariant

  /** Every token in the channel belongs to a connection that holds a slot, and
      the wait group counts the handlers that have not finished. */
  ghost predicate Counts(s: System) {
    && s.slots == Count(s.conns, HoldsSlot)
    && s.slots <= s.max
    && s.wg == Count(s.conns, Waited)
  }

  ghost predicate Books(s: System) {
    && (forall c :: c in s.active <==> 0 <= c < |s.conns| && IsActive(s.conns[c]))
    && (forall c :: 0 <= c < |s.conns| && IsClosed(s.conns[c]) ==> c in s.closed)
  }

  ghost predicate Mutex(s: System) {
    && (s.lock == Held(OfCanceller) <==> s.canceller == Holding || s.canceller.Sweeping?)
    && (forall c :: 0 <= c < |s.conns| ==> (HoldsLock(s.conns[c]) <==> s.lock == Held(OfConn(c))))
    && (s.lock.Held? && s.lock.owner.OfConn? ==> s.lock.owner.c < |s.conns|)
  }

  /** The accept loop holds the last connection, or none. */
  ghost predicate Loop(s: System) {
    && (s.acceptor == Handling ==> s.conns != [])
    && (forall c :: 0 <= c < |s.conns| ==> (WithAcceptor(s.conns[c]) <==> s.acceptor == Handling && c == |s.conns| - 1))
    && (s.acceptor == WaitOver || s.acceptor == Returned ==> s.wg == 0)
  }

  predicate SawCancellation(s: System) {
    s.canceller.Woken? || s.canceller.Holding? || s.canceller.Sweeping? || s.canceller.Swept?
  }

  /** Past the point where the canceller had the mutex, an active connection is
      closed or on the list to be closed, and none is about to be added. */
  ghost predicate Sweep(s: System) {
    && (SawCancellation(s) ==> s.cancelled)
    && (s.canceller.Sweeping? || s.canceller.Swept? <==> !s.listening)
    && (s.canceller == Dismissed ==> s.acceptor == Returned)
    && (s.canceller.Sweeping? ==> s.canceller.todo <= s.active && s.active - s.canceller.todo <= s.closed)
    && (s.canceller.Swept? ==> s.active <= s.closed && forall c :: 0 <= c < |s.conns| ==> s.conns[c] != Admitted)
  }

  ghost predicate Inv(s: System) {
    Counts(s) && Books(s) && Mutex(s) && Loop(s) && Sweep(s)
  }

  function One(b: bool): int {
    if b then 1 else 0
  }

  lemma MoveSlots(s: System, c: nat)
    requires c < |s.conns| && CanMove(s, c)
    ensures var t := Moved(s, c);
            && |t.conns| == |s.conns| && t.max == s.max
            && t.slots == s.slots - One(HoldsSlot(s.conns[c])) + One(HoldsSlot(t.conns[c]))
            && (t.slots <= s.slots || t.slots <= t.max)
  {
  }

  lemma MoveWaits(s: System, c: nat)
    requires c < |s.conns| && CanMove(s, c)
    ensures var t := Moved(s, c);
            && |t.conns| == |s.conns|
            && t.wg == s.wg - One(Waited(s.conns[c])) + One(Waited(t.conns[c]))
  {
  }

  /** A move makes its own connection active or not, */
  lemma MoveActive(s: System, c: nat)
    requires c < |s.conns|
    ensures var t := Moved(s, c);
            && |t.conns| == |s.conns|
            && (forall d :: d != c ==> (d in t.active <==> d in s.active))
            && (IsActive(t.conns[c]) == IsActive(s.conns[c]) ==> t.active == s.active)
            && (IsActive(t.conns[c]) != IsActive(s.conns[c]) ==> (c in t.active <==> IsActive(t.conns[c])))
  {
  }

  /** and closes no other. */
  lemma MoveCloses(s: System, c: nat)
    requires c < |s.conns|
    ensures var t := Moved(s, c);
            && |t.conns| == |s.conns|
            && s.closed <= t.closed && (IsClosed(t.conns[c]) && !IsClosed(s.conns[c]) ==> c in t.closed)
  {
  }

  lemma MoveLock(s: System, c: nat)
    requires c < |s.conns| && CanMove(s, c)
    ensures var t := Moved(s, c);
            && |t.conns| == |s.conns| && t.canceller == s.canceller
            && t.lock == (if HoldsLock(t.conns[c]) == HoldsLock(s.conns[c]) then s.lock
                          else if HoldsLock(t.conns[c]) then Held(OfConn(c)) else Free)
            && (HoldsLock(t.conns[c]) && !HoldsLock(s.conns[c]) ==> s.lock == Free)
  {
  }

  lemma MoveLoop(s: System, c: nat)
    requires c < |s.conns|
    ensures var t := Moved(s, c);
            && |t.conns| == |s.conns|
            && (WithAcceptor(t.conns[c]) ==> WithAcceptor(s.conns[c]))
            && t.acceptor == (if WithAcceptor(s.conns[c]) && !WithAcceptor(t.conns[c]) then Accepting else s.acceptor)
            && (t.wg == s.wg || WithAcceptor(s.conns[c]) || Waited(s.conns[c]))
  {
  }

  /** A move concerns one connection, */
  lemma MovesOne(s: System, c: nat)
    requires c < |s.conns|
    ensures |Moved(s, c).conns| == |s.conns|
    ensures Moved(s, c).conns == s.conns[c := Moved(s, c).conns[c]]
  {
  }

  /** and takes it a step further. */
  lemma MoveAdvances(s: System, c: nat)
    requires c < |s.conns| && CanMove(s, c)
    ensures |Moved(s, c).conns| == |s.conns|
    ensures StepsLeft(Moved(s, c).conns[c]) < StepsLeft(s.conns[c])
  {
  }

  lemma CountsFollow(s: System, t: System, c: nat, x: Phase)
    requires Counts(s) && c < |s.conns| && t.conns == s.conns[c := x] && t.max == s.max
    requires t.slots == s.slots - One(HoldsSlot(s.conns[c])) + One(HoldsSlot(x))
    requires t.wg == s.wg - One(Waited(s.conns[c])) + One(Waited(x))
    requires t.slots <= s.slots || t.slots <= t.max
    ensures Counts(t)
  {
    CountUpdate(s.conns, c, x, HoldsSlot);
    CountUpdate(s.conns, c, x, Waited);
  }

  lemma CountsKept(s: System, a: Action)
    requires Counts(s) && Enabled(s, a)
    ensures Counts(Next(s, a))
  {
    if a.Move? {
      MovesOne(s, a.c);
      MoveSlots(s, a.c);
      MoveWaits(s, a.c);
      CountsFollow(s, Moved(s, a.c), a.c, Moved(s, a.c).conns[a.c]);
    } else if a.Accept? {
      assert Next(s, a).conns[..|s.conns|] == s.conns;
    }
  }

  lemma BooksFollow(s: System, t: System, c: nat, q: Phase)
    requires Books(s) && c < |s.conns| && t.conns == s.conns[c := q]
    requires forall d :: d != c ==> (d in t.active <==> d in s.active)
    requires if IsActive(q) == IsActive(s.conns[c]) then t.active == s.active else (c in t.active <==> IsActive(q))
    requires s.closed <= t.closed && (IsClosed(q) && !IsClosed(s.conns[c]) ==> c in t.closed)
    ensures Books(t)
  {
  }

  lemma BooksKept(s: System, a: Action)
    requires Books(s) && Enabled(s, a)
    ensures Books(Next(s, a))
  {
    if a.Move? {
      MovesOne(s, a.c);
      MoveActive(s, a.c);
      MoveCloses(s, a.c);
      BooksFollow(s, Moved(s, a.c), a.c, Moved(s, a.c).conns[a.c]);
    }
  }

  lemma MutexFollows(s: System, t: System, c: nat, q: Phase)
    requires Mutex(s) && c < |s.conns| && t.conns == s.conns[c := q] && t.canceller == s.canceller
    requires t.lock == if HoldsLock(q) == HoldsLock(s.conns[c]) then s.lock
                       else if HoldsLock(q) then Held(OfConn(c)) else Free
    requires HoldsLock(q) && !HoldsLock(s.conns[c]) ==> s.lock == Free
    ensures Mutex(t)
  {
  }

  lemma MutexKept(s: System, a: Action)
    requires Mutex(s) && Enabled(s, a)
    ensures Mutex(Next(s, a))
  {
    if a.Move? {
      MovesOne(s, a.c);
      MoveLock(s, a.c);
      MutexFollows(s, Moved(s, a.c), a.c, Moved(s, a.c).conns[a.c]);
    }
  }

  lemma LoopFollows(s: System, t: System, c: nat, q: Phase)
    requires Loop(s) && c < |s.conns| && t.conns == s.conns[c := q]
    requires WithAcceptor(q) ==> WithAcceptor(s.conns[c])
    requires t.acceptor == if WithAcceptor(s.conns[c]) && !WithAcceptor(q) then Accepting else s.acceptor
    requires t.wg == s.wg || WithAcceptor(s.conns[c]) || s.wg > 0
    ensures Loop(t)
  {
  }

  lemma LoopKept(s: System, a: Action)
    requires Loop(s) && Counts(s) && Enabled(s, a)
    ensures Loop(Next(s, a))
  {
    if a.Move? {
      MovesOne(s, a.c);
      MoveLoop(s, a.c);
      CountPositiveIfWaited(s, a.c);
      LoopFollows(s, Moved(s, a.c), a.c, Moved(s, a.c).conns[a.c]);
    }
  }

  lemma CountPositiveIfWaited(s: System, c: nat)
    requires Counts(s) && c < |s.conns|
    ensures Waited(s.conns[c]) ==> s.wg > 0
  {
    if Waited(s.conns[c]) {
      CountPositive(s.conns, c, Waited);
    }
  }

  lemma SweepFollows(s: System, t: System, c: nat, q: Phase)
    requires Sweep(s) && Books(s) && Mutex(s) && Loop(s) && c < |s.conns| && t.conns == s.conns[c := q]
    requires t.canceller == s.canceller && t.cancelled == s.cancelled && t.listening == s.listening
    requires t.acceptor == s.acceptor || WithAcceptor(s.conns[c])
    requires s.closed <= t.closed
    requires t.active <= s.active || (s.conns[c] == Admitted && t.active == s.active + {c})
    requires s.conns[c] != Deleting ==> s.active <= t.active
    requires q == Admitted ==> s.conns[c] == Checking && !s.cancelled
    ensures Sweep(t)
  {
    if s.conns[c] == Admitted || s.conns[c] == Deleting {
      assert HoldsLock(s.conns[c]);
    }
  }

  lemma MoveLeavesCanceller(s: System, c: nat)
    requires c < |s.conns|
    ensures var t := Moved(s, c);
            && t.canceller == s.canceller && t.cancelled == s.cancelled && t.listening == s.listening
            && s.closed <= t.closed && (t.acceptor == s.acceptor || WithAcceptor(s.conns[c]))
  {
  }

  lemma MoveAdmits(s: System, c: nat)
    requires c < |s.conns|
    ensures var t := Moved(s, c);
            && |t.conns| == |s.conns|
            && (t.active <= s.active || (s.conns[c] == Admitted && t.active == s.active + {c}))
            && (s.conns[c] != Deleting ==> s.active <= t.active)
            && (t.conns[c] == Admitted ==> s.conns[c] == Checking && !s.cancelled)
  {
  }

  lemma SweepKept(s: System, a: Action)
    requires Sweep(s) && Books(s) && Mutex(s) && Loop(s) && Enabled(s, a)
    ensures Sweep(Next(s, a))
  {
    if a.Move? {
      MovesOne(s, a.c);
      MoveLeavesCanceller(s, a.c);
      MoveAdmits(s, a.c);
      SweepFollows(s, Moved(s, a.c), a.c, Moved(s, a.c).conns[a.c]);
    }
  }

  lemma InvKept(s: System, a: Action)
    requires Inv(s) && Enabled(s, a)
    ensures Inv(Next(s, a))
  {
    CountsKept(s, a);
    BooksKept(s, a);
    MutexKept(s, a);
    LoopKept(s, a);
    SweepKept(s, a);
  }

  lemma {:induction false} InvAlways(max: nat, schedule: seq<Action>)
    ensures Inv(After(max, schedule))
  {
    if schedule != [] {
      var front, a := schedule[..|schedule| - 1], schedule[|schedule| - 1];
      InvAlways(max, front);
      if Enabled(After(max, front), a) {
        InvKept(After(max, front), a);
      }
    }
  }

  // ----- what holds in every interleaving

  /** The tokens in the channel are the holders, never more than the maximum,
      and a receive from the channel never blocks. */
  lemma SlotsAreHolders(max: nat, schedule: seq<Action>, c: nat)
    ensures var s := After(max, schedule);
            && s.slots == Count(s.conns, HoldsSlot)
            && s.slots <= max
            && (c < |s.conns| && (s.conns[c] == GivingBack || s.conns[c] == Freeing) ==> CanMove(s, c))
  {
    InvAlways(max, schedule);
    MaxIsFixed(max, schedule);
    var s := After(max, schedule);
    if c < |s.conns| && (s.conns[c] == GivingBack || s.conns[c] == Freeing) {
      CountPositive(s.conns, c, HoldsSlot);
    }
  }

  lemma {:induction false} MaxIsFixed(max: nat, schedule: seq<Action>)
    ensures After(max, schedule).max == max
  {
    if schedule != [] {
      MaxIsFixed(max, schedule[..|schedule| - 1]);
    }
  }

  /** What becomes of a connection that was accepted: it is closed at once when
      every slot is held, and gets one of the free slots otherwise. */
  lemma ArrivalIff(max: nat, schedule: seq<Action>, c: nat)
    requires var s := After(max, schedule); c < |s.conns| && s.conns[c] == Arrived
    ensures var s := After(max, schedule);
            && Enabled(s, Move(c))
            && var t := Next(s, Move(c));
               if Count(s.conns, HoldsSlot) == max then t.conns[c] == Gone && c in t.closed && t.slots == s.slots
               else t.conns[c] == Slotted && HoldsSlot(t.conns[c]) && t.slots == s.slots + 1
  {
    InvAlways(max, schedule);
    MaxIsFixed(max, schedule);
  }

  predicate GivenUp(p: Phase) {
    p.Turned? || p.GivingBack? || p.Dropping?
  }

  /** A connection that got a slot is given up only after a cancellation. */
  lemma {:induction false} GivenUpOnlyWhenCancelled(max: nat, schedule: seq<Action>, c: nat)
    requires c < |After(max, schedule).conns| && GivenUp(After(max, schedule).conns[c])
    ensures After(max, schedule).cancelled
  {
    var front, a := schedule[..|schedule| - 1], schedule[|schedule| - 1];
    var s := After(max, front);
    if c < |s.conns| && GivenUp(s.conns[c]) {
      GivenUpOnlyWhenCancelled(max, front, c);
    }
  }

  predicate WasServed(p: Phase) {
    p.Serving? || p.Leaving? || p.Deleting? || p.Deleted? || p.Freeing? || p.Finishing?
  }

  /** The connection was in ServeConn after the first m actions. */
  predicate ServedAt(max: nat, schedule: seq<Action>, c: nat, m: nat) {
    m <= |schedule| && c < |After(max, schedule[..m]).conns| && After(max, schedule[..m]).conns[c] == Serving
  }

  /** The connection asked for a slot after the first m actions, when all of them
      were held. */
  predicate CrowdedOutAt(max: nat, schedule: seq<Action>, c: nat, m: nat) {
    && m < |schedule| && schedule[m] == Move(c)
    && c < |After(max, schedule[..m]).conns| && After(max, schedule[..m]).conns[c] == Arrived
    && Count(After(max, schedule[..m]).conns, HoldsSlot) == max
  }

  ghost predicate Explained(max: nat, schedule: seq<Action>, c: nat, p: Phase) {
    && (WasServed(p) ==> exists m: nat :: ServedAt(max, schedule, c, m))
    && (p.Gone? ==>
          || After(max, schedule).cancelled
          || (exists m: nat :: ServedAt(max, schedule, c, m))
          || exists m: nat :: CrowdedOutAt(max, schedule, c, m))
  }

  lemma ExplainedLater(max: nat, schedule: seq<Action>, a: Action, c: nat, p: Phase)
    requires Explained(max, schedule, c, p)
    ensures Explained(max, schedule + [a], c, p)
  {
    var later := schedule + [a];
    assert later[..|schedule|] == schedule;
    if m: nat :| ServedAt(max, schedule, c, m) {
      assert later[..m] == schedule[..m];
      assert ServedAt(max, later, c, m);
    }
    if m: nat :| CrowdedOutAt(max, schedule, c, m) {
      assert later[..m] == schedule[..m];
      assert CrowdedOutAt(max, later, c, m);
    }
  }

  /** A move of its own explains the phase it leads to, if the one before was
      explained. */
  lemma MoveExplains(max: nat, schedule: seq<Action>, c: nat)
    requires var s := After(max, schedule); c < |s.conns| && CanMove(s, c)
    requires Explained(max, schedule + [Move(c)], c, After(max, schedule).conns[c])
    ensures c < |Moved(After(max, schedule), c).conns|
    ensures Explained(max, schedule + [Move(c)], c, Moved(After(max, schedule), c).conns[c])
  {
    var s, later := After(max, schedule), schedule + [Move(c)];
    assert later[..|schedule|] == schedule && later[..|later|] == later;
    MovesOne(s, c);
    match s.conns[c]
    case Arrived =>
      ArrivalIff(max, schedule, c);
      assert s.slots >= s.max ==> CrowdedOutAt(max, later, c, |schedule|);
    case Counted => assert ServedAt(max, later, c, |later|);
    case Dropping => GivenUpOnlyWhenCancelled(max, schedule, c);
    case _ =>
  }

  lemma OnlyOwnMove(s: System, a: Action, c: nat)
    requires Enabled(s, a) && c < |s.conns|
    ensures c < |Next(s, a).conns| && (a != Move(c) ==> Next(s, a).conns[c] == s.conns[c])
  {
    if a.Move? {
      MovesOne(s, a.c);
    }
  }

  /** Until a cancellation, a connection that is gone was served, or arrived while
      every slot was held. */
  lemma {:induction false} GoneBecause(max: nat, schedule: seq<Action>, c: nat)
    requires c < |After(max, schedule).conns|
    ensures Explained(max, schedule, c, After(max, schedule).conns[c])
  {
    var front, a := schedule[..|schedule| - 1], schedule[|schedule| - 1];
    var s := After(max, front);
    assert front + [a] == schedule;
    if c < |s.conns| {
      GoneBecause(max, front, c);
      ExplainedLater(max, front, a, c, s.conns[c]);
      if Enabled(s, a) {
        OnlyOwnMove(s, a, c);
        if a == Move(c) {
          MoveExplains(max, front, c);
        }
      }
    }
  }

  /** A schedule that serves n connections at once. */
  function ServeAll(n: nat): seq<Action> {
    if n == 0 then [] else ServeAll(n - 1) + [Accept] + Moves(n - 1, 7)
  }

  function Moves(c: nat, k: nat): seq<Action> {
    if k == 0 then [] else Moves(c, k - 1) + [Move(c)]
  }

  /** The connection after `k` moves while nothing else happens. */
  function InLine(k: nat): Phase
    requires k <= 7
  {
    [Arrived, Slotted, Checking, Admitted, Listed, Unlocked, Counted, Serving][k]
  }

  /** All earlier connections are being served, and the last is k steps from its
      arrival. */
  ghost predicate ServingAndNext(s: System, n: nat, k: nat)
    requires k <= 7
  {
    && |s.conns| == n + 1 && s.conns[n] == InLine(k)
    && (forall c :: 0 <= c < n ==> s.conns[c] == Serving)
    && s.slots == (if k == 0 then n else n + 1) && !s.cancelled && s.listening
    && s.lock == (if 2 <= k <= 4 then Held(OfConn(n)) else Free)
    && s.acceptor == if k == 7 then Accepting else Handling
  }

  lemma NextInLine(s: System, n: nat, k: nat)
    requires k < 7 && ServingAndNext(s, n, k) && n < s.max
    ensures Enabled(s, Move(n)) && ServingAndNext(Next(s, Move(n)), n, k + 1)
  {
    MovesOne(s, n);
  }

  lemma AfterSnoc(max: nat, schedule: seq<Action>, a: Action)
    ensures var s := After(max, schedule);
            After(max, schedule + [a]) == if Enabled(s, a) then Next(s, a) else s
  {
    assert (schedule + [a])[..|schedule|] == schedule;
  }

  lemma {:induction false} LineAdvances(max: nat, schedule: seq<Action>, n: nat, k: nat)
    requires k <= 7 && n < max && ServingAndNext(After(max, schedule), n, 0)
    ensures ServingAndNext(After(max, schedule + Moves(n, k)), n, k)
  {
    if k == 0 {
      assert schedule + [] == schedule;
    } else {
      LineAdvances(max, schedule, n, k - 1);
      assert schedule + Moves(n, k) == schedule + Moves(n, k - 1) + [Move(n)];
      AfterSnoc(max, schedule + Moves(n, k - 1), Move(n));
      MaxIsFixed(max, schedule + Moves(n, k - 1));
      NextInLine(After(max, schedule + Moves(n, k - 1)), n, k - 1);
    }
  }

  /** All n connections are being served, and nothing else is going on. */
  ghost predicate AllServing(s: System, n: nat) {
    && |s.conns| == n && (forall c :: 0 <= c < n ==> s.conns[c] == Serving)
    && s.slots == n && !s.cancelled && s.listening && s.lock == Free && s.acceptor == Accepting
  }

  lemma AcceptStartsLine(s: System, n: nat)
    requires AllServing(s, n)
    ensures Enabled(s, Accept) && ServingAndNext(Next(s, Accept), n, 0)
  {
  }

  lemma LineEnds(s: System, n: nat)
    requires ServingAndNext(s, n, 7)
    ensures AllServing(s, n + 1)
  {
  }

  /** As many connections as there are slots can be served at once. */
  lemma {:induction false} ServesUpToMax(max: nat, n: nat)
    requires n <= max
    ensures AllServing(After(max, ServeAll(n)), n)
  {
    if n > 0 {
      ServesUpToMax(max, n - 1);
      AfterSnoc(max, ServeAll(n - 1), Accept);
      AcceptStartsLine(After(max, ServeAll(n - 1)), n - 1);
      LineAdvances(max, ServeAll(n - 1) + [Accept], n - 1, 7);
      LineEnds(After(max, ServeAll(n)), n - 1);
    }
  }

  /** At most one party is under the mutex. */
  lemma MutualExclusion(max: nat, schedule: seq<Action>, c: nat, d: nat)
    requires var s := After(max, schedule); c < |s.conns| && d < |s.conns| && HoldsLock(s.conns[c])
    ensures var s := After(max, schedule);
            && (HoldsLock(s.conns[d]) ==> c == d)
            && s.canceller != Holding && !s.canceller.Sweeping?
  {
    InvAlways(max, schedule);
  }

  /** Once the sweep is over, every active connection is closed, and no later
      step of anyone makes another one active. */
  lemma SweepIsFinal(max: nat, schedule: seq<Action>, a: Action)
    requires var s := After(max, schedule); s.canceller == Swept && Enabled(s, a)
    ensures var s := After(max, schedule);
            && s.active <= s.closed
            && Next(s, a).canceller == Swept && Next(s, a).active <= s.active
  {
    InvAlways(max, schedule);
  }

  /** When ServeContext returns, no handler runs, no slot is held, nothing is
      active, and every connection it ever accepted has been closed. */
  lemma NothingLeftOnReturn(max: nat, schedule: seq<Action>)
    requires After(max, schedule).acceptor == Returned
    ensures var s := After(max, schedule);
            && s.slots == 0 && s.wg == 0 && s.active == {}
            && (forall c :: 0 <= c < |s.conns| ==> s.conns[c] == Gone && c in s.closed)
  {
    InvAlways(max, schedule);
    var s := After(max, schedule);
    AllGone(s);
    CountZero(s.conns, HoldsSlot);
  }

  lemma AllGone(s: System)
    requires Inv(s) && s.acceptor != Handling && s.wg == 0
    ensures forall c :: 0 <= c < |s.conns| ==> s.conns[c] == Gone
  {
    forall c | 0 <= c < |s.conns| ensures s.conns[c] == Gone {
      CountPositiveIfWaited(s, c);
    }
  }

  // ----- shutdown completes

  /** How many steps the connection can still take. */
  function StepsLeft(p: Phase): nat {
    match p
    case Arrived => 15
    case Slotted => 14
    case Checking => 13
    case Admitted => 12
    case Listed => 11
    case Unlocked => 10
    case Counted => 9
    case Serving => 8
    case Leaving => 7
    case Deleting => 6
    case Deleted => 5
    case Freeing => 4
    case Finishing => 1
    case Turned => 3
    case GivingBack => 2
    case Dropping => 1
    case Gone => 0
  }

  function SumLeft(conns: seq<Phase>): nat {
    if conns == [] then 0 else SumLeft(conns[..|conns| - 1]) + StepsLeft(conns[|conns| - 1])
  }

  function AcceptorLeft(acceptor: Acceptor): nat {
    match acceptor
    case Accepting => 3
    case Handling => 3
    case Returning => 2
    case WaitOver => 1
    case Returned => 0
  }

  function CancellerLeft(s: System): nat {
    match s.canceller
    case Watching => 4 + |s.conns|
    case Woken => 3 + |s.conns|
    case Holding => 2 + |s.conns|
    case Sweeping(todo) => 1 + |todo|
    case Swept => 0
    case Dismissed => 0
  }

  /** Bounds the forced steps left. */
  function Measure(s: System): nat {
    SumLeft(s.conns) + AcceptorLeft(s.acceptor) + CancellerLeft(s)
  }

  lemma {:induction false} SumUpdate(conns: seq<Phase>, c: nat, x: Phase)
    requires c < |conns|
    ensures SumLeft(conns[c := x]) == SumLeft(conns) - StepsLeft(conns[c]) + StepsLeft(x)
  {
    var n := |conns| - 1;
    if c == n {
      assert conns[c := x][..n] == conns[..n];
    } else {
      assert conns[c := x][..n] == conns[..n][c := x];
      SumUpdate(conns[..n], c, x);
    }
  }

  lemma AcceptorAfterMove(s: System, c: nat)
    requires Loop(s) && c < |s.conns|
    ensures AcceptorLeft(Moved(s, c).acceptor) == AcceptorLeft(s.acceptor) && Moved(s, c).canceller == s.canceller
  {
  }

  lemma MoveCounts(s: System, c: nat)
    requires Loop(s) && c < |s.conns| && CanMove(s, c)
    ensures Measure(Moved(s, c)) < Measure(s)
  {
    MovesOne(s, c);
    MoveAdvances(s, c);
    SumUpdate(s.conns, c, Moved(s, c).conns[c]);
    AcceptorAfterMove(s, c);
  }

  lemma {:induction false} SetIsBounded(s: set<nat>, n: nat)
    requires forall x :: x in s ==> x < n
    ensures |s| <= n
  {
    if n > 0 {
      SetIsBounded(s - {n - 1}, n - 1);
    }
  }

  /** A step that does not depend on the outside world: ServeConn is only sure
      to return once its connection has been closed, and Accept once the
      listener has been. */
  predicate Forced(s: System, a: Action) {
    && Enabled(s, a)
    && a != Cancel && !a.Accept?
    && (a.AcceptError? ==> !s.listening)
    && (a.Move? && s.conns[a.c] == Serving ==> a.c in s.closed)
  }

  lemma CancellerAdvances(s: System, a: Action)
    requires Books(s) && Forced(s, a) && (a == CloseListener || a.CloseActive?)
    ensures CancellerLeft(Next(s, a)) < CancellerLeft(s)
  {
    if a == CloseListener {
      SetIsBounded(s.active, |s.conns|);
    } else {
      assert s.canceller.todo == (s.canceller.todo - {a.c}) + {a.c};
    }
  }

  lemma OtherStepsEnd(s: System, a: Action)
    requires Books(s) && Forced(s, a) && !a.Move?
    ensures Measure(Next(s, a)) < Measure(s)
  {
    if a == CloseListener || a.CloseActive? {
      CancellerAdvances(s, a);
    }
  }

  /** Every forced step brings the end nearer: no schedule of forced steps is
      longer than the measure. */
  lemma ForcedStepsEnd(s: System, a: Action)
    requires Inv(s) && Forced(s, a)
    ensures Measure(Next(s, a)) < Measure(s)
  {
    if a.Move? {
      MoveCounts(s, a.c);
    } else {
      OtherStepsEnd(s, a);
    }
  }

  predicate Ended(s: System) {
    s.acceptor == Returned && (s.canceller.Swept? || s.canceller.Dismissed?)
  }

  /** A run of forced steps. */
  predicate ForcedRun(s: System, run: seq<Action>)
    decreases |run|
  {
    run == [] || (Forced(s, run[0]) && ForcedRun(Next(s, run[0]), run[1..]))
  }

  function Follow(s: System, run: seq<Action>): System
    requires ForcedRun(s, run)
    decreases |run|
  {
    if run == [] then s else Follow(Next(s, run[0]), run[1..])
  }

  lemma {:induction false} ForcedRunBounded(s: System, run: seq<Action>)
    requires Inv(s) && ForcedRun(s, run)
    ensures Inv(Follow(s, run)) && |run| + Measure(Follow(s, run)) <= Measure(s)
    ensures s.cancelled ==> Follow(s, run).cancelled
    decreases |run|
  {
    if run != [] {
      InvKept(s, run[0]);
      ForcedStepsEnd(s, run[0]);
      CancellationLasts(s, run[0]);
      ForcedRunBounded(Next(s, run[0]), run[1..]);
    }
  }

  /** After a cancellation the program cannot get stuck: until ServeContext has
      returned and its goroutines have ended, some forced step is possible. */
  lemma NeverStuck(s: System)
    requires Inv(s) && s.cancelled && !Ended(s)
    ensures exists a :: Forced(s, a)
  {
    if s.canceller == Watching {
      assert Forced(s, Wake);
    } else if s.lock.Held? {
      LockHolderMoves(s);
    } else if s.canceller == Woken {
      assert Forced(s, TakeLock);
    } else {
      LoopMoves(s);
    }
  }

  lemma CancellationLasts(s: System, a: Action)
    requires Enabled(s, a)
    ensures s.cancelled ==> Next(s, a).cancelled
  {
  }

  /** Shutdown completes. In every interleaving, however the forced steps are
      scheduled after a cancellation, they come to an end, and when no more is
      possible ServeContext has returned and the canceller has ended. */
  lemma ShutdownCompletes(max: nat, schedule: seq<Action>, run: seq<Action>)
    requires var s := After(max, schedule); s.cancelled && ForcedRun(s, run)
    ensures var s := After(max, schedule);
            && |run| <= Measure(s)
            && ((forall a :: !Forced(Follow(s, run), a)) ==> Ended(Follow(s, run)))
  {
    InvAlways(max, schedule);
    var s := After(max, schedule);
    ForcedRunBounded(s, run);
    if !Ended(Follow(s, run)) {
      NeverStuck(Follow(s, run));
    }
  }

  lemma LockHolderMoves(s: System)
    requires Inv(s) && s.lock.Held?
    ensures exists a :: Forced(s, a)
  {
    if s.lock.owner.OfConn? {
      assert Forced(s, Move(s.lock.owner.c));
    } else if s.canceller == Holding {
      assert Forced(s, CloseListener);
    } else if s.canceller.todo == {} {
      assert Forced(s, DropLock);
    } else {
      var c :| c in s.canceller.todo;
      assert Forced(s, CloseActive(c));
    }
  }

  lemma LoopMoves(s: System)
    requires Inv(s) && s.lock == Free && s.canceller == Swept && s.acceptor != Returned
    ensures exists a :: Forced(s, a)
  {
    match s.acceptor
    case Accepting => assert Forced(s, AcceptError);
    case Handling => ConnMoves(s, |s.conns| - 1);
    case WaitOver => assert Forced(s, CloseDone);
    case Returning =>
      if s.wg == 0 {
        assert Forced(s, Wait);
      } else {
        if forall c :: 0 <= c < |s.conns| ==> !Waited(s.conns[c]) {
          CountZero(s.conns, Waited);
        }
        var c :| 0 <= c < |s.conns| && Waited(s.conns[c]);
        ConnMoves(s, c);
      }
  }

  lemma ConnMoves(s: System, c: nat)
    requires Inv(s) && s.lock == Free && s.canceller == Swept && c < |s.conns| && s.conns[c] != Gone
    ensures Forced(s, Move(c))
  {
    if HoldsSlot(s.conns[c]) {
      CountPositive(s.conns, c, HoldsSlot);
    }
  }
}
