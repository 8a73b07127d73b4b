/** `FastFile`: thin wrappers over the file system plus a batched delete queue. Names queued
    by `DeleteAsync` are flushed by `DeleteAll` once more than 64 wait or more than four
    seconds have passed since the last flush; a failed delete is remembered, not thrown. */
module FastFiles {
  import opened Base
  import DateTimes
  import opened QueueFiles

  const MaxDeleteQueueCount: nat := 64
  const MaxSecondsToDelete: nat := 4

  /** The Win32 error `DeleteFile` reports for an existing file it cannot delete (sharing, access), if any. */
  type Refusal = string -> Option<int>

  /** Win32 `ERROR_FILE_NOT_FOUND`. */
  const ErrorFileNotFound: int := 2

  /** The static state: the delete queue, the time of the last flush, the last exception. */
  datatype FastFile = FastFile(pending: seq<string>, lastDeleted: DateTimes.DateTime,
                               lastException: Option<Exn>, disk: Disk)

  /** `ClearException()`. */
  function ClearException(f: FastFile): (r: FastFile)
    ensures r.lastException.None? && r.pending == f.pending && r.disk == f.disk && r.lastDeleted == f.lastDeleted
  {
    f.(lastException := None)
  }

  /** The error `Delete(fileName)` raises: none when the file goes or was already missing. */
  function DeleteError(disk: Disk, name: string, refuse: Refusal): (e: Option<Exn>)
    ensures e.Some? ==> name in disk && refuse(name).Some?
    ensures name !in disk ==> e.None?
  {
    if name in disk && refuse(name).Some? && refuse(name).value != ErrorFileNotFound
    then Some(IOError("Delete failed", refuse(name).value))
    else None
  }

  /** `Delete(fileName)`: the Win32 call, which leaves a refused file in place; a missing file is not an error. */
  function DeleteOne(disk: Disk, name: string, refuse: Refusal): (r: (Disk, Option<Exn>))
    ensures r.1 == DeleteError(disk, name, refuse)
    ensures forall p :: p in r.0 <==> p in disk && (p != name || refuse(name).Some?)
    ensures forall p :: p in r.0 ==> r.0[p] == disk[p]
  {
    if name in disk && refuse(name).None? then (disk - {name}, None)
    else (disk, DeleteError(disk, name, refuse))
  }

  /** `ProcessDeletes()`'s test: more than 64 names wait, or more than four seconds since the
      last flush (`TotalSeconds > 4`, that is more than 40 million ticks). */
  predicate FlushDue(pending: seq<string>, lastDeleted: DateTimes.DateTime, now: DateTimes.DateTime)
  {
    |pending| > MaxDeleteQueueCount
    || DateTimes.ElapsedTicks(lastDeleted, now) > MaxSecondsToDelete * DateTimes.TicksPerSecond
  }

  /** `DeleteAsync(fileName)` at clock reading `now`: queue the name; the flag says whether
      a `DeleteAll` task is started. */
  function DeleteAsync(f: FastFile, name: string, now: DateTimes.DateTime): (r: (FastFile, bool))
    ensures r.0 == f.(pending := f.pending + [name])
    ensures !r.1 ==> |r.0.pending| <= MaxDeleteQueueCount
    ensures |f.pending| >= MaxDeleteQueueCount ==> r.1
  {
    var f1 := f.(pending := f.pending + [name]);
    (f1, FlushDue(f1.pending, f1.lastDeleted, now))
  }

  /** Which names survive a flush of `pending`: those not queued, and the queued ones the system refused to delete. */
  predicate Survives(p: string, disk: Disk, pending: seq<string>, refuse: Refusal)
  {
    p in disk && (p !in pending || refuse(p).Some?)
  }

  /** The exception a flush leaves behind: that of the last queued name that failed, else the one before. */
  function LastFailure(pending: seq<string>, disk: Disk, refuse: Refusal, prior: Option<Exn>): (e: Option<Exn>)
    decreases |pending|
  {
    if |pending| == 0 then prior
    else
      var e := DeleteError(disk, pending[|pending| - 1], refuse);
      if e.Some? then e else LastFailure(pending[..|pending| - 1], disk, refuse, prior)
  }

  /** `DeleteAll()` at clock reading `now`: stamp the flush, then delete every queued name in
      order, remembering the exception of each one that fails and carrying on. */
  method DeleteAll(f: FastFile, now: DateTimes.DateTime, refuse: Refusal) returns (r: FastFile)
    ensures r.pending == [] && r.lastDeleted == now
    ensures forall p :: p in r.disk <==> Survives(p, f.disk, f.pending, refuse)
    ensures forall p :: p in r.disk ==> p in f.disk && r.disk[p] == f.disk[p]
    ensures r.lastException == LastFailure(f.pending, f.disk, refuse, f.lastException)
  {
    r := f.(lastDeleted := now);
    var done := 0;
    while |r.pending| > 0
      invariant done <= |f.pending| && r.pending == f.pending[done..] && r.lastDeleted == now
      invariant forall p :: p in r.disk <==> Survives(p, f.disk, f.pending[..done], refuse)
      invariant forall p :: p in r.disk ==> p in f.disk && r.disk[p] == f.disk[p]
      invariant r.lastException == LastFailure(f.pending[..done], f.disk, refuse, f.lastException)
      decreases |r.pending|
    {
      var name := r.pending[0];
      assert f.pending[..done + 1] == f.pending[..done] + [name];
      assert (f.pending[..done] + [name])[..done] == f.pending[..done];
      var (d, e) := DeleteOne(r.disk, name, refuse);
      DeleteErrorStable(f.disk, r.disk, name, refuse, f.pending[..done]);
      r := r.(pending := r.pending[1..], disk := d, lastException := if e.Some? then e else r.lastException);
      done := done + 1;
    }
    assert f.pending[..done] == f.pending;
  }

  /** A name fails the same way whether or not earlier names of the batch were already deleted. */
  lemma DeleteErrorStable(disk: Disk, now: Disk, name: string, refuse: Refusal, before: seq<string>)
    requires forall p :: p in now <==> Survives(p, disk, before, refuse)
    ensures DeleteError(now, name, refuse) == DeleteError(disk, name, refuse)
  {
  }

  /** A delete starts a flush exactly when it makes the queue longer than 64 names or more
      than four seconds (40 million ticks) have passed since the last flush. */
  lemma FlushTriggers(f: FastFile, name: string, now: DateTimes.DateTime)
    ensures DeleteAsync(f, name, now).1
        <==> |f.pending| >= 64 || DateTimes.ElapsedTicks(f.lastDeleted, now) > 40_000_000
  {
  }

  /** A flush clears the queue; afterwards only a later `DeleteAsync` or the clock starts another. */
  lemma FlushResets(f: FastFile, now: DateTimes.DateTime, name: string)
    requires f.pending == [] && f.lastDeleted == now
    ensures !DeleteAsync(f, name, now).1
  {
  }
}
