/**
 * End-to-end lifecycles assembled from the registry, the allocation tracker, the gates
 * and the last-error channel: one tracked value from creation to a rejected second free,
 * two threads failing at once without seeing each other's errors, and a string from
 * `to_c_string` handed to the universal free.
 */
module Scenarios {
  import opened Wrappers
  import opened LastError
  import opened Errors
  import opened Registry
  import opened Gates
  import Allocations

  const StringTag := Named("String")
  const IntegerTag := Named("i32")

  /**
   * A boxed string tracked at `ptr`: it validates as `String` and not as `i32`; freeing it
   * succeeds once and leaves nothing live; freeing it again is refused.
   */
  lemma LifecycleScenario(ptr: Addr)
    requires ptr != 0
    ensures var r1 := TrackBox(Empty, ptr, StringTag);
      && LiveCount(r1) == 1
      && Validate(r1, ptr, StringTag) == Ok(())
      && Validate(r1, ptr, IntegerTag) == Err(WrongHandleType(ptr))
      && var (r2, first) := Free(r1, ptr);
      && first == Ok(())
      && LiveCount(r2) == 0
      && r2.destroyed == [Cleanup(ptr, Boxed)]
      && Free(r2, ptr) == (r2, Err(InvalidHandle(ptr)))
  {
    var r1 := TrackBox(Empty, ptr, StringTag);
    assert r1.tracked == map[ptr := Entry(StringTag, Boxed)];
    DoubleFreeRejected(r1, ptr, StringTag);
  }

  /**
   * example/example.c, steps 7 and 8: `cimple_free(str)` returns 0, then the repeated
   * call returns -1 and the calling thread reads code 3 (InvalidHandle).
   */
  lemma DoubleFreeThroughBoundary(slots: Slots, t: ThreadId, ptr: Addr)
    requires ptr != 0
    ensures var r := BoxTracked(Empty, ptr, StringTag).0;
      var (r1, s1, rc1) := CimpleFree(r, slots, t, ptr);
      var (r2, s2, rc2) := CimpleFree(r1, s1, t, ptr);
      && rc1 == 0 && s1 == slots
      && rc2 == -1 && r2 == r1
      && LastCode(s2, t) == 3
      && LastMessage(s2, t) == Some("InvalidHandle: " + Text.Decimal(ptr))
  {
    var r := BoxTracked(Empty, ptr, StringTag).0;
    var (r1, s1, rc1) := CimpleFree(r, slots, t, ptr);
    assert ptr !in r1.tracked;
    var (r2, s2, rc2) := CimpleFree(r1, s1, t, ptr);
    assert Slot(s2, t) == Some(ToError(InvalidHandle(ptr)));
    assert ToError(InvalidHandle(ptr)).message == "InvalidHandle: " + Text.Decimal(ptr);
  }

  /**
   * Error channel isolation: thread `a` passes a string handle where an `i32` is wanted
   * while thread `b` passes an address never tracked; each reads back only its own code.
   */
  lemma ThreadsSeeOwnErrors(ptr: Addr, stray: Addr, a: ThreadId, b: ThreadId)
    requires ptr != 0 && stray != 0 && stray != ptr && a != b
    ensures var r := BoxTracked(Empty, ptr, StringTag).0;
      var (s1, flowA) := DerefOrReturn(r, NoErrors, a, ptr, IntegerTag, "value", -1);
      var (s2, flowB) := DerefOrReturn(r, s1, b, stray, StringTag, "value", -1);
      && flowA == Return(-1) && flowB == Return(-1)
      && LastCode(s2, a) == 4
      && LastCode(s2, b) == 3
  {
  }

  /**
   * A string from `to_c_string` is recorded only in the allocation tracker, while
   * `cimple_free` consults only the pointer registry: freeing it the documented way
   * fails with -1 and code 3, and the string stays allocated.
   */
  lemma CStringThroughCimpleFree(r: Registry, a: Allocations.Tracker, slots: Slots, t: ThreadId, s: seq<Text.byte>, raw: Addr)
    requires raw != 0 && raw !in r.tracked && !Allocations.HasNul(s)
    ensures var (a1, p) := Allocations.ToCString(a, s, raw);
      var (r1, s1, rc) := CimpleFree(r, slots, t, p);
      && rc == -1 && r1 == r && LastCode(s1, t) == 3
      && p in a1.live && a1.live[p] == Allocations.AllocInfo(Allocations.CStringAlloc, |s| + 1)
      && a1.freed == a.freed
  {
  }

  /**
   * The universal free as documented: a registered pointer is released through the
   * registry; otherwise a pointer the allocation tracker holds is released with the
   * destructor its recorded kind calls for; anything else is refused with InvalidHandle.
   */
  function UniversalFree(r: Registry, a: Allocations.Tracker, slots: Slots, t: ThreadId, ptr: Addr)
    : (out: (Registry, Allocations.Tracker, Slots, int32))
    ensures out.3 == 0 <==> ptr == 0 || ptr in r.tracked || ptr in a.live
    ensures out.3 == 0 ==> out.2 == slots
    ensures ptr == 0 ==> out.0 == r && out.1 == a
    ensures ptr != 0 && ptr in r.tracked ==>
      && out.0.tracked == r.tracked - {ptr}
      && out.0.destroyed == r.destroyed + [Cleanup(ptr, r.tracked[ptr].strategy)]
      && out.1 == a
    ensures ptr != 0 && ptr !in r.tracked && ptr in a.live ==>
      && out.0 == r
      && out.1.live == a.live - {ptr}
      && |out.1.freed| == |a.freed| + 1 && out.1.freed[..|a.freed|] == a.freed
      && out.1.freed[|a.freed|].addr == ptr
      && Allocations.MatchesAllocation(a.live[ptr], out.1.freed[|a.freed|])
    ensures out.3 == -1 ==> out.0 == r && out.1 == a && Slot(out.2, t) == Some(ToError(InvalidHandle(ptr)))
    ensures forall u :: u != t ==> Slot(out.2, u) == Slot(slots, u)
  {
    if ptr != 0 && ptr !in r.tracked && ptr in a.live then
      var (a1, _) :=
        if a.live[ptr].kind == Allocations.CStringAlloc then Allocations.FreeCString(a, ptr)
        else Allocations.FreeBoxedSlice(a, ptr);
      (r, a1, slots, 0)
    else
      var (r1, s1, rc) := CimpleFree(r, slots, t, ptr);
      (r1, a, s1, rc)
  }

  /**
   * With the universal free as documented, a string from `to_c_string` is released once,
   * exactly as allocated, and a second free is refused with code 3.
   */
  lemma CStringThroughUniversalFree(r: Registry, a: Allocations.Tracker, slots: Slots, t: ThreadId, s: seq<Text.byte>, raw: Addr)
    requires raw != 0 && raw !in r.tracked && !Allocations.HasNul(s)
    ensures var (a1, p) := Allocations.ToCString(a, s, raw);
      var (r1, a2, s1, rc1) := UniversalFree(r, a1, slots, t, p);
      var (r2, a3, s2, rc2) := UniversalFree(r1, a2, s1, t, p);
      && rc1 == 0 && r1 == r && s1 == slots && p !in a2.live
      && |a2.freed| == |a.freed| + 1
      && Allocations.MatchesAllocation(Allocations.AllocInfo(Allocations.CStringAlloc, |s| + 1), a2.freed[|a.freed|])
      && rc2 == -1 && a3 == a2 && LastCode(s2, t) == 3
  {
  }
}
