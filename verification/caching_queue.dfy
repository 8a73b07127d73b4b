/** `CachingQueue<T>`: a FIFO queue that keeps at most `maxMessagesInMemory` items in
    memory and the rest as file keys, loading keys back in order, at most 32 per lock,
    once the in-memory part falls below the reorder level. */
module CachingQueues {
  import opened Base
  import Sorting
  import opened QueueFiles

  /** `ReorderQty`: keys loaded per lock taken by a refill pass. */
  const ReorderQty: nat := 32

  /** `hot` is `messageQueue`, `cold` is `keysQueue`; `reloading` says a refill task is running. */
  datatype CQ<T> = CQ(hot: seq<T>, cold: seq<string>, max: int, reorder: int, persist: bool,
                      reloading: bool, reloadError: Option<Exn>, disk: Disk)

  /** Reading a message back from its file; it may throw. */
  type Loader<!T> = string -> Result<T>

  // ---------------------------------------------------------------------------
  // Construction
  // ---------------------------------------------------------------------------

  /** The hydration loop: load files while fewer than `max` are in memory, queue the rest as keys. */
  function Fill<T>(files: seq<string>, hot: seq<T>, cold: seq<string>, max: int, load: Loader<T>)
    : (r: Result<(seq<T>, seq<string>)>)
    decreases |files|
  {
    if |files| == 0 then Ok((hot, cold))
    else if |hot| < max then
      var msg :- load(files[0]);
      Fill(files[1..], hot + [msg], cold, max, load)
    else Fill(files[1..], hot, cold + [files[0]], max, load)
  }

  /** The first `n` files, loaded. */
  predicate LoadedFrom<T(==)>(hot: seq<T>, files: seq<string>, load: Loader<T>)
  {
    |hot| <= |files| && forall i :: 0 <= i < |hot| ==> load(files[i]) == Ok(hot[i])
  }

  /** Hydrating from `hot`/`cold` fills memory up to `max` with the files in order and keys the rest. */
  lemma {:induction false} FillSplits<T>(files: seq<string>, hot: seq<T>, cold: seq<string>, max: int, load: Loader<T>)
    requires cold == [] || |hot| >= max
    requires Fill(files, hot, cold, max, load).Ok?
    ensures var (h, c) := Fill(files, hot, cold, max, load).value;
      var n := if |hot| >= max then 0 else if max - |hot| < |files| then max - |hot| else |files|;
      && |h| == |hot| + n
      && h[..|hot|] == hot
      && LoadedFrom(h[|hot|..], files, load)
      && c == cold + files[n..]
    decreases |files|
  {
    if |files| > 0 {
      if |hot| < max {
        var msg := load(files[0]).value;
        FillSplits(files[1..], hot + [msg], cold, max, load);
        var (h, c) := Fill(files, hot, cold, max, load).value;
        assert h[..|hot| + 1] == hot + [msg] by {
          assert h[..|hot| + 1] == h[..|hot + [msg]|];
        }
        assert h[..|hot|] == (hot + [msg])[..|hot|];
        forall i | 0 <= i < |h[|hot|..]| ensures load(files[i]) == Ok(h[|hot|..][i]) {
          if i > 0 {
            assert h[|hot|..][i] == h[|hot + [msg]|..][i - 1];
            assert files[i] == files[1..][i - 1];
          } else {
            assert h[|hot|..][0] == (hot + [msg])[|hot|];
          }
        }
        var n := if max - |hot| < |files| then max - |hot| else |files|;
        assert files[n..] == files[1..][n - 1..];
      } else {
        FillSplits(files[1..], hot, cold + [files[0]], max, load);
        assert files == [files[0]] + files[1..];
      }
    }
  }

  /** The constructor: with persistence on, the sorted listing hydrates the queue; a load
      that throws makes the constructor throw. */
  function Create<T>(listing: seq<string>, load: Loader<T>, max: int, reorder: int, persist: bool, disk: Disk)
    : (r: Result<CQ<T>>)
    ensures !persist ==> r.Ok? && r.value.hot == [] && r.value.cold == []
    ensures r.Ok? ==> !r.value.reloading && r.value.reloadError.None?
  {
    if !persist then Ok(CQ([], [], max, reorder, persist, false, None, disk))
    else
      var (hot, cold) :- Fill(Sorting.Sort(listing), [], [], max, load);
      Ok(CQ(hot, cold, max, reorder, persist, false, None, disk))
  }

  // ---------------------------------------------------------------------------
  // Operations
  // ---------------------------------------------------------------------------

  /** `Count`. */
  function Count<T>(q: CQ<T>): nat
  {
    |q.hot| + |q.cold|
  }

  /** Where `Enqueue` and `ReEnqueue` put a new entry: in memory only while there is room and no key waits ahead of it. */
  function Place<T>(q: CQ<T>, key: string, message: T): (r: CQ<T>)
    ensures Count(r) == Count(q) + 1
    ensures |q.hot| < q.max && q.cold == [] ==> r.hot == q.hot + [message] && r.cold == q.cold
    ensures !(|q.hot| < q.max && q.cold == []) ==> r.hot == q.hot && r.cold == q.cold + [key]
  {
    if |q.hot| < q.max && |q.cold| == 0 then q.(hot := q.hot + [message])
    else q.(cold := q.cold + [key])
  }

  /** `Enqueue(key, message)`: with persistence on, write `message.ToString()` to the key's file first. */
  function Enqueue<T>(q: CQ<T>, key: string, message: T, render: T -> string): (r: CQ<T>)
    ensures r.disk == (if q.persist then q.disk[key := render(message)] else q.disk)
    ensures Count(r) == Count(q) + 1
    ensures |q.hot| < q.max && q.cold == [] ==> r.hot == q.hot + [message] && r.cold == q.cold
    ensures !(|q.hot| < q.max && q.cold == []) ==> r.hot == q.hot && r.cold == q.cold + [key]
    ensures r.max == q.max && r.reloading == q.reloading && r.reloadError == q.reloadError
  {
    var q1 := if q.persist then q.(disk := WriteAllText(q.disk, key, render(message))) else q;
    Place(q1, key, message)
  }

  /** `ReEnqueue(key, message)`: as `Enqueue`, without writing the file. */
  function ReEnqueue<T>(q: CQ<T>, key: string, message: T): (r: CQ<T>)
    ensures r.disk == q.disk
    ensures Count(r) == Count(q) + 1
    ensures |q.hot| < q.max && q.cold == [] ==> r.hot == q.hot + [message] && r.cold == q.cold
    ensures !(|q.hot| < q.max && q.cold == []) ==> r.hot == q.hot && r.cold == q.cold + [key]
    ensures r.max == q.max && r.reloading == q.reloading && r.reloadError == q.reloadError
  {
    Place(q, key, message)
  }

  /** `Peek()`: the head in memory, or the default when memory is empty. */
  function Peek<T>(q: CQ<T>): (r: Option<T>)
    ensures r.Some? <==> |q.hot| > 0
    ensures r.Some? ==> r.value == q.hot[0]
  {
    if |q.hot| > 0 then Some(q.hot[0]) else None
  }

  /** `Dequeue()`: take the head in memory; then, if keys wait and memory has fallen below the
      reorder level, start a refill unless one is running. */
  function Dequeue<T>(q: CQ<T>): (r: (CQ<T>, Option<T>))
    ensures r.1 == Peek(q)
    ensures |q.hot| == 0 ==> r.0 == q
    ensures |q.hot| > 0 ==> r.0.hot == q.hot[1..] && r.0.cold == q.cold && Count(r.0) + 1 == Count(q)
    ensures |q.hot| > 0 ==>
              (r.0.reloading <==> q.reloading || (|q.cold| > 0 && |q.hot| - 1 < q.reorder))
  {
    if |q.hot| > 0 then
      var q1 := q.(hot := q.hot[1..]);
      var start := |q1.cold| > 0 && |q1.hot| < q1.reorder && !q1.reloading;
      (if start then q1.(reloading := true) else q1, Some(q.hot[0]))
    else (q, None)
  }

  // ---------------------------------------------------------------------------
  // Refill
  // ---------------------------------------------------------------------------

  /** One pass of the refill task under the lock: load up to `ReorderQty` keys while memory has
      room. A load that throws ends the pass, records the exception, and loses that key, which
      was already dequeued. Returns how many keys loaded and whether a load threw. */
  method RefillPass<T(==)>(q: CQ<T>, load: Loader<T>) returns (r: CQ<T>, loaded: nat, failed: bool)
    ensures loaded <= ReorderQty && loaded <= |q.cold|
    ensures |r.hot| == |q.hot| + loaded && r.hot[..|q.hot|] == q.hot
    ensures LoadedFrom(r.hot[|q.hot|..], q.cold, load)
    ensures r.max == q.max && r.reorder == q.reorder && r.reloading == q.reloading && r.disk == q.disk
    ensures r.persist == q.persist
    ensures Bounded(q) ==> Bounded(r)
    ensures !failed ==>
              r.reloadError == q.reloadError && r.cold == q.cold[loaded..]
              && (loaded == ReorderQty || loaded == |q.cold| || |r.hot| >= q.max)
    ensures failed ==>
              loaded < |q.cold| && load(q.cold[loaded]).Err?
              && r.reloadError == Some(load(q.cold[loaded]).error)
              && r.cold == q.cold[loaded + 1..]
  {
    r := q;
    loaded := 0;
    failed := false;
    while |r.cold| > 0 && loaded < ReorderQty && |r.hot| < r.max
      invariant loaded <= ReorderQty && loaded <= |q.cold|
      invariant r == q.(hot := r.hot, cold := q.cold[loaded..])
      invariant |r.hot| == |q.hot| + loaded && r.hot[..|q.hot|] == q.hot
      invariant LoadedFrom(r.hot[|q.hot|..], q.cold, load)
      invariant Bounded(q) ==> Bounded(r)
      decreases |r.cold|
    {
      var key := r.cold[0];
      assert key == q.cold[loaded];
      var cold := r.cold[1..];
      assert cold == q.cold[loaded + 1..];
      match load(key) {
        case Err(e) =>
          r := r.(cold := cold, reloadError := Some(e));
          failed := true;
          return;
        case Ok(msg) =>
          var hot := r.hot + [msg];
          assert hot[|q.hot|..] == r.hot[|q.hot|..] + [msg];
          r := r.(hot := hot, cold := cold);
          loaded := loaded + 1;
      }
    }
  }

  /** One turn of the refill task's outer loop: mark the refill running, run a pass, and stop
      (clearing the mark) once no key waits or memory is full. */
  method RefillTurn<T(==)>(q: CQ<T>, load: Loader<T>) returns (r: CQ<T>, loaded: nat, failed: bool)
    ensures Turned(q, r, loaded, failed, load)
    ensures Bounded(q) ==> Good(r)
    ensures !r.reloading <==> (r.cold == [] || |r.hot| >= q.max)
    ensures r.reloading ==> loaded + (if failed then 1 else 0) > 0
  {
    r, loaded, failed := RefillPass(q.(reloading := true), load);
    if |r.cold| == 0 || |r.hot| >= r.max {
      r := r.(reloading := false);
    }
  }

  /** Every key in `keys` loads. */
  predicate AllLoad<T>(keys: seq<string>, load: Loader<T>)
  {
    forall i :: 0 <= i < |keys| ==> load(keys[i]).Ok?
  }

  /** What one turn guarantees, as `RefillTurn` states it: `n` keys loaded, and one more dropped if `failed`. */
  predicate Turned<T(==)>(q: CQ<T>, r: CQ<T>, n: nat, failed: bool, load: Loader<T>)
  {
    && r.max == q.max && r.reorder == q.reorder && r.disk == q.disk && r.persist == q.persist
    && |r.hot| == |q.hot| + n && r.hot[..|q.hot|] == q.hot
    && LoadedFrom(r.hot[|q.hot|..], q.cold, load)
    && n + (if failed then 1 else 0) <= |q.cold|
    && r.cold == q.cold[n + (if failed then 1 else 0)..]
    && (failed ==> load(q.cold[n]).Err?)
    && (!failed ==> r.reloadError == q.reloadError)
  }

  /** The state of the refill task after consuming `used` keys of `q`, `lost` of them dropped. */
  predicate Consumed<T(==)>(q: CQ<T>, r: CQ<T>, used: nat, lost: nat, load: Loader<T>)
  {
    && used <= |q.cold| && r.cold == q.cold[used..]
    && r.max == q.max && r.reorder == q.reorder && r.disk == q.disk && r.persist == q.persist
    && lost <= used && |r.hot| == |q.hot| + used - lost && r.hot[..|q.hot|] == q.hot
    && (AllLoad(q.cold, load) ==>
          lost == 0 && r.reloadError == q.reloadError && LoadedFrom(r.hot[|q.hot|..], q.cold, load))
  }

  /** A turn extends the refill's progress. */
  lemma TurnConsumes<T>(q: CQ<T>, prev: CQ<T>, r: CQ<T>, used: nat, lost: nat, n: nat, failed: bool, load: Loader<T>)
    requires Consumed(q, prev, used, lost, load)
    requires Turned(prev, r, n, failed, load)
    ensures Consumed(q, r, used + n + (if failed then 1 else 0), lost + (if failed then 1 else 0), load)
  {
    var step := n + (if failed then 1 else 0);
    assert r.hot[..|q.hot|] == q.hot by {
      assert r.hot[..|prev.hot|][..|q.hot|] == r.hot[..|q.hot|];
    }
    assert q.cold[used..][step..] == q.cold[used + step..];
    if AllLoad(q.cold, load) {
      assert !failed;
      forall i | 0 <= i < |r.hot| - |q.hot| ensures load(q.cold[i]) == Ok(r.hot[|q.hot|..][i]) {
        if i < used {
          assert r.hot[|q.hot|..][i] == r.hot[..|prev.hot|][|q.hot|..][i];
          assert r.hot[|q.hot|..][i] == prev.hot[|q.hot|..][i];
        } else {
          assert r.hot[|q.hot|..][i] == r.hot[|prev.hot|..][i - used];
          assert prev.cold[i - used] == q.cold[i];
        }
      }
    }
  }

  /** The refill task, run to its end without other operations in between: keys move into
      memory in queue order; only a key whose load throws is dropped. */
  method RefillTask<T(==)>(q: CQ<T>, load: Loader<T>) returns (r: CQ<T>)
    ensures !r.reloading && (r.cold == [] || |r.hot| >= q.max)
    ensures r.max == q.max && r.reorder == q.reorder && r.disk == q.disk && r.persist == q.persist
    ensures |r.cold| <= |q.cold| && r.cold == q.cold[|q.cold| - |r.cold|..]
    ensures |r.hot| >= |q.hot| && r.hot[..|q.hot|] == q.hot
    ensures Count(r) <= Count(q)
    ensures AllLoad(q.cold, load) ==>
              Count(r) == Count(q) && r.reloadError == q.reloadError
              && LoadedFrom(r.hot[|q.hot|..], q.cold, load)
  {
    r := q;
    var used := 0;
    var lost := 0;
    while true
      invariant Consumed(q, r, used, lost, load)
      decreases |r.cold|
    {
      var r', n, failed := RefillTurn(r, load);
      TurnConsumes(q, r, r', used, lost, n, failed, load);
      r := r';
      used := used + n + (if failed then 1 else 0);
      lost := lost + (if failed then 1 else 0);
      if !r.reloading {
        return;
      }
    }
  }

  // ---------------------------------------------------------------------------
  // Invariants
  // ---------------------------------------------------------------------------

  /** Memory never holds more than `maxMessagesInMemory` items. */
  predicate Bounded<T>(q: CQ<T>)
  {
    |q.hot| <= q.max || |q.hot| == 0
  }

  /** While keys wait and no refill runs, memory holds at least the reorder level or is full. */
  predicate Stocked<T>(q: CQ<T>)
  {
    |q.cold| > 0 && !q.reloading ==> |q.hot| >= q.reorder || |q.hot| >= q.max
  }

  predicate Good<T>(q: CQ<T>)
  {
    Bounded(q) && Stocked(q)
  }

  /** A freshly constructed queue keeps both invariants. */
  lemma CreateGood<T>(listing: seq<string>, load: Loader<T>, max: int, reorder: int, persist: bool, disk: Disk)
    requires Create(listing, load, max, reorder, persist, disk).Ok?
    ensures Good(Create(listing, load, max, reorder, persist, disk).value)
  {
    if persist {
      var empty: seq<T> := [];
      FillSplits(Sorting.Sort(listing), empty, [], max, load);
    }
  }

  /** Every operation keeps both invariants. */
  lemma EnqueueGood<T>(q: CQ<T>, key: string, message: T, render: T -> string)
    requires Good(q)
    ensures Good(Enqueue(q, key, message, render)) && Good(ReEnqueue(q, key, message))
  {
  }

  lemma DequeueGood<T>(q: CQ<T>)
    requires Good(q)
    ensures Good(Dequeue(q).0)
  {
  }

  /** A dequeue that finds nothing in memory means the queue is empty, unless a refill is
      running or the limits are below one item. */
  lemma DequeueNothingMeansEmpty<T>(q: CQ<T>)
    requires Good(q) && !q.reloading && q.reorder >= 1 && q.max >= 1
    ensures Dequeue(q).1.None? <==> Count(q) == 0
  {
  }

  /** With a reorder level of zero no refill ever starts, so a key queued behind an emptied
      memory stays unreachable while `Count` says it is there. */
  lemma ZeroReorderStrandsKeys()
    ensures var q: CQ<int> := CQ([], ["k"], 1, 0, true, false, None, map[]);
      && Good(q) && Count(q) == 1 && Dequeue(q) == (q, None)
  {
  }
}
