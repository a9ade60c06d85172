/**
 * src/utils.rs, pointer registry: a map from address to (type tag, cleanup) with the
 * three transitions `track`, `validate` and `free`, each one atomic step under the
 * registry mutex. The cleanup closure is represented by the ownership strategy it
 * reverses; running it appends a `Cleanup` event to the `destroyed` log.
 */
module Registry {
  import opened Wrappers
  import opened LastError
  import opened Errors

  /** A pointer value as `usize` on a 64-bit target; 0 is null. */
  type Addr = a: int | 0 <= a < 0x1_0000_0000_0000_0000

  /** `TypeId`: equal exactly for the same concrete type. `Mutex<T>` is a type of its own. */
  datatype TypeTag = Named(name: string) | MutexOf(inner: TypeTag)

  /** How the value was wrapped, hence how its cleanup reconstructs and drops it. */
  datatype Strategy =
    | Boxed        // Box::into_raw, undone by Box::from_raw
    | Shared       // Arc::into_raw, undone by Arc::from_raw (one count dropped)
    | SharedMutex  // Arc::into_raw of an Arc<Mutex<T>>, undone the same way

  datatype Entry = Entry(tag: TypeTag, strategy: Strategy)

  /** One run of a cleanup closure: which address was destroyed, and how. */
  datatype Cleanup = Cleanup(addr: Addr, strategy: Strategy)

  /** The registry's map, plus the log of every cleanup that has run, oldest first. */
  datatype Registry = Registry(tracked: map<Addr, Entry>, destroyed: seq<Cleanup>)

  /** `PointerRegistry::new()`, built lazily on first use. */
  const Empty := Registry(map[], [])

  /**
   * How many pointers are still tracked: `tracked.len()` in `Drop for PointerRegistry`.
   * Zero exactly for the empty map, and at least one for each live address.
   */
  function LiveCount(r: Registry): (n: nat)
    ensures n == 0 <==> r.tracked == map[]
    ensures forall a :: a in r.tracked ==> n >= 1
  {
    |r.tracked|
  }

  /**
   * `r'` is `r` with `ptr` bound to `e`: every other entry and the cleanup log are as
   * they were, which is all `HashMap::insert` under the lock may change.
   */
  ghost predicate InsertedOnly(r: Registry, r': Registry, ptr: Addr, e: Entry) {
    && ptr in r'.tracked && r'.tracked[ptr] == e
    && (forall a :: a != ptr ==> (a in r'.tracked <==> a in r.tracked))
    && (forall a :: a != ptr && a in r.tracked ==> r'.tracked[a] == r.tracked[a])
    && r'.destroyed == r.destroyed
  }

  /** `PointerRegistry::track`: a null pointer is ignored; otherwise `HashMap::insert`. */
  function Track(r: Registry, ptr: Addr, tag: TypeTag, strategy: Strategy): (r': Registry)
    ensures ptr == 0 ==> r' == r
    ensures ptr != 0 ==> InsertedOnly(r, r', ptr, Entry(tag, strategy))
    ensures ptr != 0 && ptr !in r.tracked ==> LiveCount(r') == LiveCount(r) + 1
  {
    if ptr != 0 then Registry(r.tracked[ptr := Entry(tag, strategy)], r.destroyed) else r
  }

  /** `PointerRegistry::validate`: read-only lookup of `ptr` expecting type `expected`. */
  function Validate(r: Registry, ptr: Addr, expected: TypeTag): (res: Result<(), CimplError>)
    ensures res.Ok? <==> ptr != 0 && ptr in r.tracked && r.tracked[ptr].tag == expected
    ensures res == Err(NullParameter("pointer")) <==> ptr == 0
    ensures res == Err(WrongHandleType(ptr)) <==> ptr != 0 && ptr in r.tracked && r.tracked[ptr].tag != expected
    ensures res == Err(InvalidHandle(ptr)) <==> ptr != 0 && ptr !in r.tracked
  {
    if ptr == 0 then Err(NullParameter("pointer"))
    else if ptr in r.tracked then
      if r.tracked[ptr].tag == expected then Ok(()) else Err(WrongHandleType(ptr))
    else Err(InvalidHandle(ptr))
  }

  /**
   * `PointerRegistry::free`: null is a no-op success; an untracked address fails and
   * changes nothing; a tracked one is removed under the lock and its cleanup then runs
   * once, with the strategy it was tracked with.
   */
  function Free(r: Registry, ptr: Addr): (out: (Registry, Result<(), CimplError>))
    ensures ptr == 0 ==> out == (r, Ok(()))
    ensures ptr != 0 && ptr !in r.tracked ==> out == (r, Err(InvalidHandle(ptr)))
    ensures ptr != 0 && ptr in r.tracked ==>
      && out.1 == Ok(())
      && out.0.tracked == r.tracked - {ptr}
      && out.0.destroyed == r.destroyed + [Cleanup(ptr, r.tracked[ptr].strategy)]
      && LiveCount(out.0) == LiveCount(r) - 1
  {
    if ptr == 0 then (r, Ok(()))
    else if ptr !in r.tracked then (r, Err(InvalidHandle(ptr)))
    else
      var entry := r.tracked[ptr];
      var removed := Registry(r.tracked - {ptr}, r.destroyed);
      (Registry(removed.tracked, removed.destroyed + [Cleanup(ptr, entry.strategy)]), Ok(()))
  }

  /**
   * `track_box::<T>`: registered as a `T` whose cleanup is `Box::from_raw`, so a later
   * `cimple_free` logs exactly one `Boxed` cleanup for it.
   */
  function TrackBox(r: Registry, ptr: Addr, t: TypeTag): (r': Registry)
    ensures ptr == 0 ==> r' == r
    ensures ptr != 0 ==> InsertedOnly(r, r', ptr, Entry(t, Boxed))
    ensures ptr != 0 ==> Validate(r', ptr, t).Ok?
    ensures ptr != 0 ==> Free(r', ptr).0.destroyed == r.destroyed + [Cleanup(ptr, Boxed)]
  {
    Track(r, ptr, t, Boxed)
  }

  /**
   * `track_arc::<T>`: registered as a `T` whose cleanup is `Arc::from_raw`, dropping one
   * strong count.
   */
  function TrackArc(r: Registry, ptr: Addr, t: TypeTag): (r': Registry)
    ensures ptr == 0 ==> r' == r
    ensures ptr != 0 ==> InsertedOnly(r, r', ptr, Entry(t, Shared))
    ensures ptr != 0 ==> Validate(r', ptr, t).Ok?
    ensures ptr != 0 ==> Free(r', ptr).0.destroyed == r.destroyed + [Cleanup(ptr, Shared)]
  {
    Track(r, ptr, t, Shared)
  }

  /**
   * `track_arc_mutex::<T>`: registered under `Mutex<T>` with an `Arc<Mutex<T>>` cleanup,
   * so validating it as a plain `T` reports the wrong type.
   */
  function TrackArcMutex(r: Registry, ptr: Addr, t: TypeTag): (r': Registry)
    ensures ptr == 0 ==> r' == r
    ensures ptr != 0 ==> InsertedOnly(r, r', ptr, Entry(MutexOf(t), SharedMutex))
    ensures ptr != 0 ==> Validate(r', ptr, MutexOf(t)).Ok?
    ensures ptr != 0 ==> Validate(r', ptr, t) == Err(WrongHandleType(ptr))
    ensures ptr != 0 ==> Free(r', ptr).0.destroyed == r.destroyed + [Cleanup(ptr, SharedMutex)]
  {
    MutexTagDiffers(t);
    Track(r, ptr, MutexOf(t), SharedMutex)
  }

  lemma {:induction false} MutexTagDiffers(t: TypeTag)
    ensures MutexOf(t) != t
  {
    match t
    case Named(_) =>
    case MutexOf(inner) => MutexTagDiffers(inner);
  }

  /**
   * `cimple_free`: 0 on success; on failure -1, with the
   * error stored in the calling thread's last-error slot.
   */
  function CimpleFree(r: Registry, slots: Slots, t: ThreadId, ptr: Addr): (out: (Registry, Slots, int32))
    ensures out.2 == 0 || out.2 == -1
    ensures out.2 == 0 <==> ptr == 0 || ptr in r.tracked
    ensures out.2 == 0 ==> out.1 == slots
    ensures ptr == 0 ==> out.0 == r
    ensures ptr != 0 && ptr in r.tracked ==>
      && out.0.tracked == r.tracked - {ptr}
      && out.0.destroyed == r.destroyed + [Cleanup(ptr, r.tracked[ptr].strategy)]
    ensures out.2 == -1 ==> out.0 == r && LastCode(out.1, t) == 3 && Slot(out.1, t) == Some(ToError(InvalidHandle(ptr)))
    ensures forall u :: u != t ==> Slot(out.1, u) == Slot(slots, u)
  {
    var (r', res) := Free(r, ptr);
    match res
    case Ok(_) => (r', slots, 0)
    case Err(e) => (r', SetLast(slots, t, ToError(e)), -1)
  }

  /** The shutdown check in `Drop for PointerRegistry`: how many pointers are still live. */
  function UnfreedAtShutdown(r: Registry): (n: nat)
    ensures n == 0 <==> r.tracked == map[]
  {
    LiveCount(r)
  }

  /** No double free: after a successful free the address neither validates nor frees again. */
  lemma DoubleFreeRejected(r: Registry, ptr: Addr, t: TypeTag)
    requires ptr != 0 && ptr in r.tracked
    ensures var (r1, first) := Free(r, ptr);
      && first == Ok(())
      && Validate(r1, ptr, t) == Err(InvalidHandle(ptr))
      && Free(r1, ptr) == (r1, Err(InvalidHandle(ptr)))
  {
  }

  /** Type confusion is rejected: a pointer tracked as one type never validates as another. */
  lemma TypeConfusionRejected(r: Registry, ptr: Addr, s: Strategy, t1: TypeTag, t2: TypeTag)
    requires ptr != 0 && t1 != t2
    ensures Validate(Track(r, ptr, t1, s), ptr, t2) == Err(WrongHandleType(ptr))
  {
  }

  /**
   * `validate` releases the lock before the caller dereferences: a successful check is
   * no lease, and a `free` in between leaves the checked address dangling.
   */
  lemma ValidationIsNoLease(r: Registry, ptr: Addr, t: TypeTag)
    requires Validate(r, ptr, t).Ok?
    ensures Validate(Free(r, ptr).0, ptr, t) == Err(InvalidHandle(ptr))
  {
  }

  /** Frees `ptrs` one after another, as racing threads serialised by the mutex. */
  function FreeAll(r: Registry, ptrs: seq<Addr>): (out: (Registry, seq<Result<(), CimplError>>))
    ensures |out.1| == |ptrs|
    decreases |ptrs|
  {
    if |ptrs| == 0 then (r, [])
    else
      var (r1, res) := Free(r, ptrs[0]);
      var (r2, rest) := FreeAll(r1, ptrs[1..]);
      (r2, [res] + rest)
  }

  /** How many of `results` succeeded. */
  function Successes(results: seq<Result<(), CimplError>>): nat {
    if |results| == 0 then 0 else (if results[0].Ok? then 1 else 0) + Successes(results[1..])
  }

  /** Repeated frees of an address that is not tracked all fail and change nothing. */
  lemma {:induction false} FreeAllUntracked(r: Registry, ptr: Addr, n: nat)
    requires ptr != 0 && ptr !in r.tracked
    ensures var (r', results) := FreeAll(r, seq(n, _ => ptr)); r' == r && Successes(results) == 0
  {
    if n > 0 {
      assert seq(n, _ => ptr)[1..] == seq(n - 1, _ => ptr);
      FreeAllUntracked(r, ptr, n - 1);
    }
  }

  /**
   * Concurrent release race: however many threads free the same live address, exactly
   * one succeeds and its cleanup runs exactly once.
   */
  lemma {:induction false} ReleaseRace(r: Registry, ptr: Addr, n: nat)
    requires ptr != 0 && ptr in r.tracked && n >= 1
    ensures var (r', results) := FreeAll(r, seq(n, _ => ptr));
      && Successes(results) == 1
      && ptr !in r'.tracked
      && r'.destroyed == r.destroyed + [Cleanup(ptr, r.tracked[ptr].strategy)]
  {
    var ptrs := seq(n, _ => ptr);
    assert ptrs[1..] == seq(n - 1, _ => ptr);
    var (r1, first) := Free(r, ptr);
    FreeAllUntracked(r1, ptr, n - 1);
  }

  /** Tracks every address of `ptrs`, in order, under one tag and strategy. */
  function TrackAll(r: Registry, ptrs: seq<Addr>, tag: TypeTag, strategy: Strategy): (r': Registry)
    ensures r'.destroyed == r.destroyed
    decreases |ptrs|
  {
    if |ptrs| == 0 then r else TrackAll(Track(r, ptrs[0], tag, strategy), ptrs[1..], tag, strategy)
  }

  /** Pairwise distinct, non-null addresses. */
  predicate DistinctLive(ptrs: seq<Addr>) {
    (forall i :: 0 <= i < |ptrs| ==> ptrs[i] != 0)
    && (forall i, j :: 0 <= i < j < |ptrs| ==> ptrs[i] != ptrs[j])
  }

  /** Tracking `n` new distinct addresses raises the live count by exactly `n`. */
  lemma {:induction false} TrackAllCounts(r: Registry, ptrs: seq<Addr>, tag: TypeTag, strategy: Strategy)
    requires DistinctLive(ptrs)
    requires forall i :: 0 <= i < |ptrs| ==> ptrs[i] !in r.tracked
    ensures LiveCount(TrackAll(r, ptrs, tag, strategy)) == LiveCount(r) + |ptrs|
    ensures forall i :: 0 <= i < |ptrs| ==> ptrs[i] in TrackAll(r, ptrs, tag, strategy).tracked
    ensures forall a :: a in r.tracked ==> a in TrackAll(r, ptrs, tag, strategy).tracked
    decreases |ptrs|
  {
    if |ptrs| > 0 {
      var r1 := Track(r, ptrs[0], tag, strategy);
      assert forall i :: 0 <= i < |ptrs[1..]| ==> ptrs[1..][i] == ptrs[i + 1];
      TrackAllCounts(r1, ptrs[1..], tag, strategy);
      forall i | 0 <= i < |ptrs|
        ensures ptrs[i] in TrackAll(r, ptrs, tag, strategy).tracked
      {
        if i > 0 {
          assert ptrs[i] == ptrs[1..][i - 1];
        }
      }
    }
  }

  /** Freeing `k` distinct live addresses lowers the live count by exactly `k`, each freed once. */
  lemma {:induction false} FreeAllCounts(r: Registry, ptrs: seq<Addr>)
    requires DistinctLive(ptrs)
    requires forall i :: 0 <= i < |ptrs| ==> ptrs[i] in r.tracked
    ensures LiveCount(FreeAll(r, ptrs).0) == LiveCount(r) - |ptrs|
    ensures Successes(FreeAll(r, ptrs).1) == |ptrs|
    ensures |FreeAll(r, ptrs).0.destroyed| == |r.destroyed| + |ptrs|
    decreases |ptrs|
  {
    if |ptrs| > 0 {
      var (r1, res) := Free(r, ptrs[0]);
      assert forall i :: 0 <= i < |ptrs[1..]| ==> ptrs[1..][i] == ptrs[i + 1];
      FreeAllCounts(r1, ptrs[1..]);
    }
  }

  /**
   * Leak accounting: starting empty, `n` registrations followed by `k <= n` releases of
   * registered addresses leave exactly `n - k` live pointers.
   */
  lemma LeakAccounting(ptrs: seq<Addr>, k: nat, tag: TypeTag, strategy: Strategy)
    requires DistinctLive(ptrs) && k <= |ptrs|
    ensures var r := TrackAll(Empty, ptrs, tag, strategy);
      LiveCount(FreeAll(r, ptrs[..k]).0) == |ptrs| - k
  {
    var r := TrackAll(Empty, ptrs, tag, strategy);
    TrackAllCounts(Empty, ptrs, tag, strategy);
    assert forall i :: 0 <= i < k ==> ptrs[..k][i] == ptrs[i];
    FreeAllCounts(r, ptrs[..k]);
  }
}
