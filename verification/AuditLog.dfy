/**
 The audit log file with size-based rotation. The disk is the active file and
 its numbered backups; every operation on it may fail, and a write may stop part
 of the way. A crash can come between any two operations on the disk, so what
 holds of the directory after each of them holds at every moment.
 */
module AuditLog {
  import opened Common

  /** What each write call added to a file. */
  type File = seq<Bytes>

  type Files = map<nat, File>

  function Size(f: File): nat {
    if f == [] then 0 else Size(f[..|f| - 1]) + |f[|f| - 1]|
  }

  function Content(files: Files, i: nat): File {
    if i in files then files[i] else []
  }

  /** The backups from the n-th down and then the active file, number 0. */
  function Chain(files: Files, n: nat): File {
    Content(files, n) + if n == 0 then [] else Chain(files, n - 1)
  }

  predicate IsSuffix(a: seq<Bytes>, b: seq<Bytes>) {
    |a| <= |b| && b[|b| - |a|..] == a
  }

  /** Nothing but the oldest file is missing from what is kept. */
  predicate Kept(before: Files, n: nat, kept: File) {
    kept == Chain(before, n) || kept == Chain(before, n)[|Content(before, n)|..]
  }

  /** Each file is within the limit or holds a single write. */
  predicate Bounded(files: Files, maxBytes: int) {
    forall i :: i in files ==> Size(files[i]) <= maxBytes || |files[i]| <= 1
  }

  // ----- how operations change the chain

  lemma {:induction false} ChainSame(a: Files, b: Files, n: nat)
    requires forall i: nat :: i <= n ==> Content(a, i) == Content(b, i)
    ensures Chain(a, n) == Chain(b, n)
  {
    if n > 0 {
      ChainSame(a, b, n - 1);
    }
  }

  lemma {:induction false} ChainOfMove(files: Files, i: nat, n: nat)
    requires i in files && i + 1 !in files && i < n
    ensures Chain((files - {i})[i + 1 := files[i]], n) == Chain(files, n)
  {
    var moved := (files - {i})[i + 1 := files[i]];
    if i + 1 < n {
      ChainOfMove(files, i, n - 1);
    } else if i > 0 {
      ChainSame(files, moved, i - 1);
    }
  }

  lemma {:induction false} ChainOfAppend(files: Files, w: Bytes, n: nat)
    ensures Chain(files[0 := Content(files, 0) + [w]], n) == Chain(files, n) + [w]
  {
    if n > 0 {
      ChainOfAppend(files, w, n - 1);
    }
  }

  lemma {:induction false} ChainOfEmpty(files: Files, n: nat)
    requires forall i :: i in files ==> i > n
    ensures Chain(files, n) == []
  {
    if n > 0 {
      ChainOfEmpty(files, n - 1);
    }
  }

  lemma ChainOfRemove(files: Files, n: nat)
    ensures Chain(files - {n}, n) == Chain(files, n)[|Content(files, n)|..]
  {
    if n > 0 {
      ChainSame(files, files - {n}, n - 1);
    }
  }

  lemma SuffixOfSuffix(a: seq<Bytes>, b: seq<Bytes>, d: nat)
    requires IsSuffix(a, b) && d <= |a|
    ensures IsSuffix(a[d..], b)
  {
    assert b[|b| - (|a| - d)..] == a[d..];
  }

  // ----- the disk

  datatype Outcome = Done | NotExist | Failed

  class Directory {
    const backups: nat
    var files: Files
    ghost var written: seq<Bytes>
    /** How many operations have failed. */
    ghost var faults: nat

    constructor (backups: nat)
      ensures Valid() && this.backups == backups && files == map[] && written == [] && faults == 0
    {
      this.backups, files, written, faults := backups, map[], [], 0;
      ChainOfEmpty(map[], backups);
    }

    /** Read from the highest backup to the active file, the log is a contiguous
        suffix of everything ever written. */
    ghost predicate Valid()
      reads this
    {
      IsSuffix(Chain(files, backups), written)
    }

    /** A call on the open file that leaves the files alone: Stat, Sync, Close and
        Chmod. */
    method Call() returns (ok: bool)
      modifies this`faults
      ensures faults == old(faults) + if ok then 0 else 1
    {
      ok := *;
      if !ok {
        faults := faults + 1;
      }
    }

    /** Only the oldest backup may be removed. */
    method Remove(i: nat) returns (r: Outcome)
      requires Valid() && i == backups
      modifies this`files, this`faults
      ensures Valid()
      ensures faults == old(faults) + if r == Failed then 1 else 0
      ensures r == NotExist ==> i !in files
      ensures files == if r == Done then old(files) - {i} else old(files)
      ensures r == Done ==> Chain(files, backups) == Chain(old(files), backups)[|Content(old(files), backups)|..]
    {
      if * {
        faults := faults + 1;
        return Failed;
      }
      if i !in files {
        return NotExist;
      }
      ChainOfRemove(files, backups);
      SuffixOfSuffix(Chain(files, backups), written, |Content(files, backups)|);
      files := files - {i};
      return Done;
    }

    /** A target that exists would be replaced; every caller has to show that
        there is none. */
    method Rename(from: nat, to: nat) returns (r: Outcome)
      requires Valid() && to == from + 1 <= backups && to !in files
      modifies this`files, this`faults
      ensures Valid()
      ensures faults == old(faults) + if r == Failed then 1 else 0
      ensures r == NotExist ==> from !in files
      ensures r == Done ==> from in old(files) && files == (old(files) - {from})[to := old(files)[from]]
      ensures r != Done ==> files == old(files)
      ensures Chain(files, backups) == Chain(old(files), backups)
    {
      if * {
        faults := faults + 1;
        return Failed;
      }
      if from !in files {
        return NotExist;
      }
      ChainOfMove(files, from, backups);
      files := (files - {from})[to := files[from]];
      return Done;
    }

    /** Opening for append creates the active file. */
    method Open() returns (ok: bool)
      requires Valid()
      modifies this`files, this`faults
      ensures Valid()
      ensures faults == old(faults) + if ok then 0 else 1
      ensures ok ==> 0 in files
      ensures files == old(files) || (0 !in old(files) && files == old(files)[0 := []])
      ensures Chain(files, backups) == Chain(old(files), backups)
    {
      if * {
        faults := faults + 1;
        return false;
      }
      if 0 !in files {
        ChainSame(files, files[0 := []], backups);
        files := files[0 := []];
      }
      return true;
    }

    /** A write that fails may have added part of the record. */
    method Write(record: Bytes) returns (ok: bool, ghost added: seq<Bytes>)
      requires Valid() && 0 in files
      modifies this
      ensures Valid() && written == old(written) + added
      ensures faults == old(faults) + if ok then 0 else 1
      ensures if ok then added == [record] else added == [] || (|added| == 1 && added[0] <= record)
      ensures files == if added == [] then old(files) else old(files)[0 := old(files)[0] + added]
      ensures Chain(files, backups) == Chain(old(files), backups) + added
    {
      hide Chain;
      var n: int := *;
      if n <= 0 || n > |record| {
        faults := faults + 1;
        return false, [];
      }
      var piece := record[..n];
      assert n == |record| ==> piece == record;
      ChainOfAppend(files, piece, backups);
      added := [piece];
      files, written := files[0 := files[0] + [piece]], written + [piece];
      ok := n == |record|;
      if !ok {
        faults := faults + 1;
      }
    }
  }

  // ----- the logger

  class FileLogger {
    const dir: Directory
    const maxBytes: int
    const maxBackups: int
    var open: bool

    /** Takes over whatever an earlier logger left on the disk. */
    constructor (dir: Directory, maxBytes: int, maxBackups: int)
      requires dir.Valid() && dir.backups == Positive(maxBackups) && 0 in dir.files
      ensures this.dir == dir && this.maxBytes == maxBytes && this.maxBackups == maxBackups && open && Valid()
    {
      this.dir, this.maxBytes, this.maxBackups, open := dir, maxBytes, maxBackups, true;
    }

    ghost predicate Valid()
      reads this, dir
    {
      && dir.Valid() && dir.backups == Positive(maxBackups)
      && (open ==> 0 in dir.files)
    }

    /** rotateBackupsLocked. Stopped at any point it has lost nothing but the
        oldest file; completed, it has moved every file up by one. */
    method RotateBackups() returns (ok: bool)
      requires Valid() && !open
      modifies dir`files, dir`faults
      ensures Valid()
      ensures Kept(old(dir.files), dir.backups, Chain(dir.files, dir.backups))
      ensures ok ==> MovedUp(old(dir.files), dir.files, dir.backups, 0)
      ensures !ok ==> Interrupted(old(dir.files), dir.files, dir.backups)
      ensures old(0 in dir.files) ==> (ok <==> dir.faults == old(dir.faults))
    {
      if maxBackups <= 0 {
        var r := dir.Remove(0);
        if r == Done {
          VacatedTop(old(dir.files), 0);
        }
        return r == Done;
      }
      ok := RemoveOldest();
      if ok {
        ok := ShiftBackups(old(dir.files));
      }
    }

    /** removeIfExists on the oldest backup. */
    method RemoveOldest() returns (ok: bool)
      requires Valid() && !open && maxBackups > 0
      modifies dir`files, dir`faults
      ensures Valid()
      ensures Kept(old(dir.files), dir.backups, Chain(dir.files, dir.backups))
      ensures if ok then MovedUp(old(dir.files), dir.files, dir.backups, dir.backups) else dir.files == old(dir.files)
      ensures dir.faults == old(dir.faults) + if ok then 0 else 1
    {
      var r := dir.Remove(maxBackups);
      VacatedTop(old(dir.files), dir.backups);
      assert maxBackups !in old(dir.files) ==> old(dir.files) - {maxBackups} == old(dir.files);
      return r != Failed;
    }

    /** The renames, from the highest index down to the active file. */
    method ShiftBackups(ghost start: Files) returns (ok: bool)
      requires Valid() && !open && maxBackups > 0
      requires MovedUp(start, dir.files, dir.backups, dir.backups)
      modifies dir`files, dir`faults
      ensures Valid() && Chain(dir.files, dir.backups) == old(Chain(dir.files, dir.backups))
      ensures if ok then MovedUp(start, dir.files, dir.backups, 0) else Interrupted(start, dir.files, dir.backups)
      ensures dir.faults == old(dir.faults) + if ok then 0 else 1
    {
      var index := maxBackups - 1;
      while index >= 1
        invariant 0 <= index < maxBackups
        invariant dir.Valid() && MovedUp(start, dir.files, dir.backups, index + 1)
        invariant Chain(dir.files, dir.backups) == old(Chain(dir.files, dir.backups))
        invariant dir.faults == old(dir.faults)
      {
        ok := RenameUp(start, index);
        if !ok {
          return;
        }
        index := index - 1;
      }
      ok := RenameUp(start, 0);
    }

    /** renameIfExists from one index to the next, which is vacant. */
    method RenameUp(ghost start: Files, index: nat) returns (ok: bool)
      requires Valid() && !open && index < dir.backups && MovedUp(start, dir.files, dir.backups, index + 1)
      modifies dir`files, dir`faults
      ensures Valid() && Chain(dir.files, dir.backups) == old(Chain(dir.files, dir.backups))
      ensures MovedUp(start, dir.files, dir.backups, if ok then index else index + 1)
      ensures dir.faults == old(dir.faults) + if ok then 0 else 1
    {
      assert MovedUpAt(start, dir.files, dir.backups, index + 1, index + 1);
      var r := dir.Rename(index, index + 1);
      if r != Failed {
        MovedUpFurther(start, old(dir.files), dir.files, dir.backups, index);
      }
      return r != Failed;
    }

    /** The record would take the active file over the limit. */
    predicate Full(next: nat)
      reads this, dir
    {
      maxBytes > 0 && Size(Content(dir.files, 0)) + next > maxBytes
    }

    /** rotateIfNeededLocked. Once the old handle is closed it stays closed until
        a new file is open. */
    method RotateIfNeeded(next: nat) returns (ok: bool)
      requires Valid()
      modifies this`open, dir`files, dir`faults
      ensures Valid() && (ok ==> open == old(open))
      ensures Kept(old(dir.files), dir.backups, Chain(dir.files, dir.backups))
      ensures old(Bounded(dir.files, maxBytes)) && maxBytes > 0 ==> Bounded(dir.files, maxBytes)
      ensures ok && maxBytes > 0 ==> open && (!Full(next) || dir.files[0] == [])
      ensures !old(Full(next)) ==> dir.files == old(dir.files)
      ensures ok && old(Full(next)) ==> dir.files[0] == [] && MovedUp(old(dir.files), dir.files - {0}, dir.backups, 0)
      ensures !old(open) ==> dir.files == old(dir.files) && !open && dir.faults == old(dir.faults)
      ensures old(open) ==> (ok <==> dir.faults == old(dir.faults))
    {
      if maxBytes <= 0 {
        return true;
      }
      if !open {
        return false;
      }
      ok := dir.Call();
      if !ok || Size(dir.files[0]) + next <= maxBytes {
        return;
      }
      ok := dir.Call();
      if !ok {
        return;
      }
      open := false;
      ok := dir.Call();
      if !ok {
        return;
      }
      ok := Rotate();
    }

    method Rotate() returns (ok: bool)
      requires Valid() && !open
      modifies this`open, dir`files, dir`faults
      ensures Valid() && (ok ==> open && dir.files[0] == [] && MovedUp(old(dir.files), dir.files - {0}, dir.backups, 0))
      ensures Kept(old(dir.files), dir.backups, Chain(dir.files, dir.backups))
      ensures old(Bounded(dir.files, maxBytes)) && maxBytes > 0 ==> Bounded(dir.files, maxBytes)
      ensures old(0 in dir.files) ==> (ok <==> dir.faults == old(dir.faults))
    {
      ok := RotateBackups();
      RotationKeepsBound(old(dir.files), dir.files, dir.backups, maxBytes);
      if !ok {
        return;
      }
      assert MovedUpAt(old(dir.files), dir.files, dir.backups, 0, 0);
      ghost var moved := dir.files;
      ok := dir.Open();
      if !ok {
        return;
      }
      assert dir.files - {0} == moved;
      open := true;
      ok := dir.Call();
    }

    /** Log, of an event that was encoded or could not be. A record is at the end
        of the log when Log returns without an error; after an error at most part
        of it is there. It succeeds whenever the event is encoded, the file open
        and no operation on the disk fails. Nothing but the oldest file is ever lost, and that only
        when the record does not fit; then every file has moved up by one. A
        logger whose rotation failed after closing the file refuses every event. */
    method Log(encoded: Option<Bytes>) returns (ok: bool, ghost kept: File, ghost added: seq<Bytes>)
      requires Valid()
      modifies this`open, dir
      ensures Valid()
      ensures dir.written == old(dir.written) + added
      ensures Chain(dir.files, dir.backups) == kept + added && Kept(old(dir.files), dir.backups, kept)
      ensures ok <==> encoded.Some? && old(open) && dir.faults == old(dir.faults)
      ensures ok ==> added == [encoded.value]
      ensures !ok ==> added == [] || (encoded.Some? && |added| == 1 && added[0] <= encoded.value)
      ensures encoded.Some? && !old(Full(|encoded.value|)) ==> kept == Chain(old(dir.files), dir.backups)
      ensures ok && old(Full(|encoded.value|)) ==>
                Content(dir.files, 0) == added && MovedUp(old(dir.files), dir.files - {0}, dir.backups, 0)
      ensures old(Bounded(dir.files, maxBytes)) && maxBytes > 0 ==> Bounded(dir.files, maxBytes)
      ensures !old(open) ==> !ok && dir.files == old(dir.files) && !open
    {
      hide Chain, MovedUp;
      kept, added := Chain(dir.files, dir.backups), [];
      if encoded.None? {
        return false, kept, added;
      }
      ok := RotateIfNeeded(|encoded.value|);
      kept := Chain(dir.files, dir.backups);
      if !ok || !open {
        return false, kept, added;
      }
      ghost var before := dir.files;
      ok, added := dir.Write(encoded.value);
      if added != [] {
        WriteKeepsBound(before, added[0], encoded.value, maxBytes);
        assert dir.files - {0} == before - {0};
      }
    }

    /** Close gives the handle up whatever the disk says. */
    method Close() returns (ok: bool)
      requires Valid()
      modifies this`open, dir`faults
      ensures Valid() && !open
      ensures ok <==> old(open) && dir.faults == old(dir.faults)
    {
      var synced := dir.Call();
      ok := dir.Call();
      ok := ok && synced && open;
      open := false;
    }
  }

  function Positive(i: int): nat {
    if i < 0 then 0 else i
  }

  function At(files: Files, i: nat): Option<File> {
    if i in files then Some(files[i]) else None
  }

  predicate MovedUpAt(before: Files, after: Files, n: nat, idx: nat, k: nat) {
    At(after, k) == (if k < idx || k > n then At(before, k) else if k == idx then None else At(before, k - 1))
  }

  /** Files `idx` to n - 1 have moved up by one and left `idx` vacant; what was
      number n is gone. */
  ghost predicate MovedUp(before: Files, after: Files, n: nat, idx: nat) {
    forall k: nat :: MovedUpAt(before, after, n, idx, k)
  }

  lemma MovedUpFurther(start: Files, before: Files, after: Files, n: nat, idx: nat)
    requires idx < n && MovedUp(start, before, n, idx + 1)
    requires after == if idx in before then (before - {idx})[idx + 1 := before[idx]] else before
    ensures MovedUp(start, after, n, idx)
  {
    forall k: nat ensures MovedUpAt(start, after, n, idx, k) {
      assert MovedUpAt(start, before, n, idx + 1, k);
      assert MovedUpAt(start, before, n, idx + 1, idx);
      assert MovedUpAt(start, before, n, idx + 1, idx + 1);
    }
  }

  lemma VacatedTop(files: Files, n: nat)
    ensures MovedUp(files, files - {n}, n, n)
  {
    forall k: nat ensures MovedUpAt(files, files - {n}, n, n, k) {
    }
  }

  /** Nothing happened, or the files from some index on have moved up. */
  ghost predicate Interrupted(before: Files, after: Files, n: nat) {
    after == before || exists idx :: 0 <= idx <= n && MovedUp(before, after, n, idx)
  }

  lemma MoveKeepsBound(before: Files, after: Files, n: nat, idx: nat, maxBytes: int)
    requires MovedUp(before, after, n, idx) && Bounded(before, maxBytes)
    ensures Bounded(after, maxBytes)
  {
    forall k | k in after ensures Size(after[k]) <= maxBytes || |after[k]| <= 1 {
      assert MovedUpAt(before, after, n, idx, k);
    }
  }

  lemma RotationKeepsBound(before: Files, after: Files, n: nat, maxBytes: int)
    requires Interrupted(before, after, n) || MovedUp(before, after, n, 0)
    ensures Bounded(before, maxBytes) ==> Bounded(after, maxBytes)
  {
    if Bounded(before, maxBytes) && after != before {
      var idx :| 0 <= idx <= n && MovedUp(before, after, n, idx);
      MoveKeepsBound(before, after, n, idx, maxBytes);
    }
  }

  lemma WriteKeepsBound(before: Files, piece: Bytes, record: Bytes, maxBytes: int)
    requires 0 in before && piece <= record
    requires maxBytes > 0 ==> Size(before[0]) + |record| <= maxBytes || before[0] == []
    ensures Bounded(before, maxBytes) && maxBytes > 0 ==> Bounded(before[0 := before[0] + [piece]], maxBytes)
  {
    var f := before[0] + [piece];
    assert f[..|f| - 1] == before[0];
  }
}
