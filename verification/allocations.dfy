/**
 * src/utils.rs, raw allocation tracker: C strings and byte arrays handed to C are
 * recorded in a table of their own (separate from the pointer registry) so that
 * `free_c_string` / `free_c_bytes` can refuse untracked and already-freed pointers.
 */
module Allocations {
  import opened Text
  import Registry

  type Addr = Registry.Addr

  datatype AllocKind = CStringAlloc | ByteArrayAlloc

  datatype AllocInfo = AllocInfo(kind: AllocKind, size: nat)

  /**
   * One deallocation: the address, the kind of value the destructor rebuilds there
   * (`CString::from_raw` or a `Box` of bytes) and the size of the layout it hands back
   * to the allocator.
   */
  datatype Release = Release(addr: Addr, destructor: AllocKind, size: nat)

  /** The allocation table, plus the log of every deallocation, oldest first. */
  datatype Tracker = Tracker(live: map<Addr, AllocInfo>, freed: seq<Release>)

  const Empty := Tracker(map[], [])

  /** A release gives back exactly what was allocated: the same kind and the same size. */
  predicate MatchesAllocation(info: AllocInfo, rel: Release) {
    rel.destructor == info.kind && rel.size == info.size
  }

  /**
   * `t'` is `t` with `ptr` recorded as `info`: every other record and the release log
   * are as they were.
   */
  ghost predicate RecordedOnly(t: Tracker, t': Tracker, ptr: Addr, info: AllocInfo) {
    && ptr in t'.live && t'.live[ptr] == info
    && (forall a :: a != ptr ==> (a in t'.live <==> a in t.live))
    && (forall a :: a != ptr && a in t.live ==> t'.live[a] == t.live[a])
    && t'.freed == t.freed
  }

  /** `AllocationTracker::track`: null ignored, otherwise insert. */
  function TrackAlloc(t: Tracker, ptr: Addr, size: nat, kind: AllocKind): (t': Tracker)
    ensures ptr == 0 ==> t' == t
    ensures ptr != 0 ==> RecordedOnly(t, t', ptr, AllocInfo(kind, size))
  {
    if ptr != 0 then Tracker(t.live[ptr := AllocInfo(kind, size)], t.freed) else t
  }

  /** `AllocationTracker::untrack`: true for null and for a tracked pointer, which it removes. */
  function Untrack(t: Tracker, ptr: Addr): (out: (Tracker, bool))
    ensures out.1 <==> ptr == 0 || ptr in t.live
    ensures ptr != 0 ==> out.0.live == t.live - {ptr}
    ensures ptr == 0 ==> out.0 == t
    ensures out.0.freed == t.freed
  {
    if ptr == 0 then (t, true)
    else if ptr in t.live then (Tracker(t.live - {ptr}, t.freed), true)
    else (t, false)
  }

  /** The byte 0, which `CString::new` refuses inside a string. */
  predicate HasNul(s: seq<byte>) {
    exists i :: 0 <= i < |s| && s[i] == 0
  }

  /**
   * `to_c_string(s)` for the UTF-8 bytes `s`; `raw` is the address `CString::into_raw`
   * yields, which is never null. An interior NUL makes it return null and track nothing;
   * otherwise the pointer is recorded as a string of `len + 1` bytes (the terminator
   * included).
   */
  function ToCString(t: Tracker, s: seq<byte>, raw: Addr): (out: (Tracker, Addr))
    requires raw != 0
    ensures HasNul(s) ==> out == (t, 0)
    ensures !HasNul(s) ==> out.1 == raw && RecordedOnly(t, out.0, raw, AllocInfo(CStringAlloc, |s| + 1))
  {
    if HasNul(s) then (t, 0)
    else (TrackAlloc(t, raw, |s| + 1, CStringAlloc), raw)
  }

  /**
   * `to_c_bytes(bytes)`: `raw` is the address `Box::into_raw` yields for the boxed slice
   * (non-null, dangling for an empty vector), recorded as a byte array of `len` bytes.
   */
  function ToCBytes(t: Tracker, bytes: seq<byte>, raw: Addr): (out: (Tracker, Addr))
    requires raw != 0
    ensures out.1 == raw
    ensures RecordedOnly(t, out.0, raw, AllocInfo(ByteArrayAlloc, |bytes|))
  {
    (TrackAlloc(t, raw, |bytes|, ByteArrayAlloc), raw)
  }

  /**
   * `free_c_string`: true for null or a tracked pointer, which is untracked and dropped
   * through `CString::from_raw`; false, touching nothing, otherwise. The recorded kind is
   * not consulted. `CString::from_raw` re-measures the string up to its NUL, which for a
   * pointer from `to_c_string` is the recorded `len + 1`; the release logs that size.
   */
  function FreeCString(t: Tracker, ptr: Addr): (out: (Tracker, bool))
    ensures out.1 <==> ptr == 0 || ptr in t.live
    ensures ptr != 0 && ptr in t.live ==>
      && out.0.live == t.live - {ptr}
      && out.0.freed == t.freed + [Release(ptr, CStringAlloc, t.live[ptr].size)]
    ensures !(ptr != 0 && ptr in t.live) ==> out.0 == t
  {
    if ptr == 0 then (t, true)
    else
      var (t', found) := Untrack(t, ptr);
      if found then (Tracker(t'.live, t'.freed + [Release(ptr, CStringAlloc, t.live[ptr].size)]), true)
      else (t, false)
  }

  /**
   * `free_c_bytes` as written: the untracking is as for strings, but the pointer is
   * rebuilt as `Box<u8>`, a single byte, whatever length was allocated; the release
   * therefore always covers a 1-byte layout.
   */
  function FreeCBytes(t: Tracker, ptr: Addr): (out: (Tracker, bool))
    ensures out.1 <==> ptr == 0 || ptr in t.live
    ensures ptr != 0 && ptr in t.live ==>
      && out.0.live == t.live - {ptr}
      && out.0.freed == t.freed + [Release(ptr, ByteArrayAlloc, 1)]
    ensures !(ptr != 0 && ptr in t.live) ==> out.0 == t
  {
    if ptr == 0 then (t, true)
    else
      var (t', found) := Untrack(t, ptr);
      if found then (Tracker(t'.live, t'.freed + [Release(ptr, ByteArrayAlloc, 1)]), true)
      else (t, false)
  }

  /**
   * `free_c_bytes` as intended: the pointer is rebuilt as the `Box<[u8]>` that
   * `to_c_bytes` leaked, with the recorded length, so the release covers the whole array.
   */
  function FreeBoxedSlice(t: Tracker, ptr: Addr): (out: (Tracker, bool))
    ensures out.1 <==> ptr == 0 || ptr in t.live
    ensures ptr != 0 && ptr in t.live ==>
      && out.0.live == t.live - {ptr}
      && out.0.freed == t.freed + [Release(ptr, ByteArrayAlloc, t.live[ptr].size)]
      && (t.live[ptr].kind == ByteArrayAlloc ==> MatchesAllocation(t.live[ptr], out.0.freed[|t.freed|]))
    ensures !(ptr != 0 && ptr in t.live) ==> out.0 == t
  {
    if ptr == 0 then (t, true)
    else
      var (t', found) := Untrack(t, ptr);
      if found then (Tracker(t'.live, t'.freed + [Release(ptr, ByteArrayAlloc, t.live[ptr].size)]), true)
      else (t, false)
  }

  /** A string from `to_c_string` frees once with true, then false, released as allocated. */
  lemma DoubleFreeCString(t: Tracker, s: seq<byte>, raw: Addr)
    requires !HasNul(s) && raw != 0
    ensures var (t1, p) := ToCString(t, s, raw);
      var (t2, first) := FreeCString(t1, p);
      var (t3, second) := FreeCString(t2, p);
      && first && !second && t3 == t2
      && t2.freed == t.freed + [Release(raw, CStringAlloc, |s| + 1)]
      && MatchesAllocation(AllocInfo(CStringAlloc, |s| + 1), t2.freed[|t.freed|])
  {
  }

  /**
   * A byte array from `to_c_bytes` frees once with true, then false; the one release
   * logged is the 1-byte `Box<u8>` of the code as written.
   */
  lemma DoubleFreeCBytes(t: Tracker, bytes: seq<byte>, raw: Addr)
    requires raw != 0
    ensures var (t1, p) := ToCBytes(t, bytes, raw);
      var (t2, first) := FreeCBytes(t1, p);
      var (t3, second) := FreeCBytes(t2, p);
      && first && !second && t3 == t2
      && t2.freed == t.freed + [Release(raw, ByteArrayAlloc, 1)]
  {
  }

  /**
   * The release `free_c_bytes` performs matches the allocation `to_c_bytes` made exactly
   * when the array holds one byte: any other length, the empty vector's dangling pointer
   * included, is handed back to the allocator with the wrong layout.
   */
  lemma FreeCBytesLayoutMismatch(t: Tracker, bytes: seq<byte>, raw: Addr)
    requires raw != 0
    ensures var (t1, p) := ToCBytes(t, bytes, raw);
      var t2 := FreeCBytes(t1, p).0;
      |t2.freed| == |t.freed| + 1
      && (MatchesAllocation(t1.live[p], t2.freed[|t.freed|]) <==> |bytes| == 1)
  {
  }

  /** With the intended destructor, the release matches the allocation for every array. */
  lemma BoxedSliceReleaseMatches(t: Tracker, bytes: seq<byte>, raw: Addr)
    requires raw != 0
    ensures var (t1, p) := ToCBytes(t, bytes, raw);
      var (t2, first) := FreeBoxedSlice(t1, p);
      var (t3, second) := FreeBoxedSlice(t2, p);
      && first && !second && t3 == t2
      && t2.freed == t.freed + [Release(raw, ByteArrayAlloc, |bytes|)]
      && MatchesAllocation(t1.live[p], t2.freed[|t.freed|])
  {
  }

  /**
   * `free_c_string` does not look at the recorded kind: it accepts a byte array from
   * `to_c_bytes` and drops it as a `CString`, a release that matches nothing allocated.
   */
  lemma FreeCStringAcceptsByteArray(t: Tracker, bytes: seq<byte>, raw: Addr)
    requires raw != 0
    ensures var (t1, p) := ToCBytes(t, bytes, raw);
      var (t2, ok) := FreeCString(t1, p);
      ok && p !in t2.live && !MatchesAllocation(t1.live[p], t2.freed[|t.freed|])
  {
  }

  /** A string holding a NUL yields null, and freeing null succeeds without effect. */
  lemma NulStringYieldsNull(t: Tracker, raw: Addr)
    requires raw != 0
    ensures var bad := [72, 101, 108, 108, 111, 0, 87, 111, 114, 108, 100];  // "Hello\0World"
      var (t1, p) := ToCString(t, bad, raw);
      p == 0 && t1 == t && FreeCString(t1, p) == (t, true)
  {
    var bad: seq<byte> := [72, 101, 108, 108, 111, 0, 87, 111, 114, 108, 100];
    assert bad[5] == 0;
  }

  /** Contribution of one allocation to a per-kind tally of counts or of bytes. */
  function Weight(info: AllocInfo, kind: AllocKind, bytes: bool): nat {
    if info.kind != kind then 0 else if bytes then info.size else 1
  }

  /** The number (or the total size) of the allocations of `kind` among `keys`. */
  ghost function Tally(live: map<Addr, AllocInfo>, keys: set<Addr>, kind: AllocKind, bytes: bool): nat
    requires keys <= live.Keys
    decreases keys
  {
    if keys == {} then 0
    else
      var a :| a in keys;
      Weight(live[a], kind, bytes) + Tally(live, keys - {a}, kind, bytes)
  }

  /** A tally may take out any one key first: the order of the walk does not matter. */
  lemma {:induction false} TallyRemove(live: map<Addr, AllocInfo>, keys: set<Addr>, x: Addr, kind: AllocKind, bytes: bool)
    requires keys <= live.Keys && x in keys
    ensures Tally(live, keys, kind, bytes) == Weight(live[x], kind, bytes) + Tally(live, keys - {x}, kind, bytes)
    decreases keys
  {
    var a :| a in keys && Tally(live, keys, kind, bytes) == Weight(live[a], kind, bytes) + Tally(live, keys - {a}, kind, bytes);
    if a != x {
      TallyRemove(live, keys - {a}, x, kind, bytes);
      TallyRemove(live, keys - {x}, a, kind, bytes);
      assert keys - {a} - {x} == keys - {x} - {a};
    }
  }

  /**
   * The fold in `Drop for AllocationTracker`: splits the live allocations into strings
   * and byte arrays, counting each and summing their sizes.
   */
  method LeakSummary(live: map<Addr, AllocInfo>)
    returns (stringCount: nat, stringBytes: nat, arrayCount: nat, arrayBytes: nat)
    ensures stringCount + arrayCount == |live|
    ensures stringCount == Tally(live, live.Keys, CStringAlloc, false)
    ensures stringBytes == Tally(live, live.Keys, CStringAlloc, true)
    ensures arrayCount == Tally(live, live.Keys, ByteArrayAlloc, false)
    ensures arrayBytes == Tally(live, live.Keys, ByteArrayAlloc, true)
  {
    stringCount, stringBytes, arrayCount, arrayBytes := 0, 0, 0, 0;
    var remaining := live.Keys;
    ghost var seen: set<Addr> := {};
    while remaining != {}
      invariant remaining + seen == live.Keys && remaining !! seen
      invariant stringCount + arrayCount == |seen|
      invariant stringCount == Tally(live, seen, CStringAlloc, false)
      invariant stringBytes == Tally(live, seen, CStringAlloc, true)
      invariant arrayCount == Tally(live, seen, ByteArrayAlloc, false)
      invariant arrayBytes == Tally(live, seen, ByteArrayAlloc, true)
      decreases remaining
    {
      var a :| a in remaining;
      var info := live[a];
      match info.kind {
        case CStringAlloc =>
          stringCount := stringCount + 1;
          stringBytes := stringBytes + info.size;
        case ByteArrayAlloc =>
          arrayCount := arrayCount + 1;
          arrayBytes := arrayBytes + info.size;
      }
      TallyRemove(live, seen + {a}, a, CStringAlloc, false);
      TallyRemove(live, seen + {a}, a, CStringAlloc, true);
      TallyRemove(live, seen + {a}, a, ByteArrayAlloc, false);
      TallyRemove(live, seen + {a}, a, ByteArrayAlloc, true);
      assert seen + {a} - {a} == seen;
      remaining := remaining - {a};
      seen := seen + {a};
    }
    assert seen == live.Keys;
  }
}
