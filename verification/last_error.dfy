/**
 * The per-thread last-error slot. Both `Error` (src/error.rs) and the `CimplError`
 * struct (src/cimpl_error.rs) are a code and a message kept in a `thread_local!`
 * `RefCell<Option<_>>`; each file has its own thread-local, and each is a `Slots` value
 * here. A thread that has never stored anything reads as empty.
 */
module LastError {
  import opened Wrappers

  /** Rust's `i32`. */
  type int32 = x: int | -0x8000_0000 <= x < 0x8000_0000

  /** An OS thread. */
  type ThreadId = nat

  /** An error crossing the boundary: an integer code (0 means none) and a message. */
  datatype Error = Error(code: int32, message: string)

  /** Every thread's slot; a thread absent from the map has never set an error. */
  type Slots = map<ThreadId, Option<Error>>

  /** Process start: no thread has a stored error. */
  const NoErrors: Slots := map[]

  /** What thread `t`'s slot holds. */
  function Slot(slots: Slots, t: ThreadId): Option<Error> {
    if t in slots then slots[t] else None
  }

  /** `last_code()`: the stored code, or 0 when the slot is empty. */
  function LastCode(slots: Slots, t: ThreadId): (c: int32)
    ensures Slot(slots, t).None? ==> c == 0
    ensures Slot(slots, t).Some? ==> c == Slot(slots, t).value.code
  {
    match Slot(slots, t)
    case Some(e) => e.code
    case None => 0
  }

  /** `last_message()`: a copy of the stored message, or `None`. */
  function LastMessage(slots: Slots, t: ThreadId): (m: Option<string>)
    ensures m.Some? <==> Slot(slots, t).Some?
    ensures m.Some? ==> m.value == Slot(slots, t).value.message
  {
    match Slot(slots, t)
    case Some(e) => Some(e.message)
    case None => None
  }

  /** `e.set_last()` on thread `t`: replaces whatever `t` had, touches no other thread. */
  function SetLast(slots: Slots, t: ThreadId, e: Error): (r: Slots)
    ensures LastCode(r, t) == e.code && LastMessage(r, t) == Some(e.message)
    ensures forall u :: u != t ==> Slot(r, u) == Slot(slots, u)
  {
    slots[t := Some(e)]
  }

  /** `take_last()` on thread `t`: hands back the stored error and leaves the slot empty. */
  function TakeLast(slots: Slots, t: ThreadId): (r: (Slots, Option<Error>))
    ensures r.1 == Slot(slots, t)
    ensures LastCode(r.0, t) == 0 && LastMessage(r.0, t) == None
    ensures forall u :: u != t ==> Slot(r.0, u) == Slot(slots, u)
  {
    (slots[t := None], Slot(slots, t))
  }

  /** A slot that holds nothing reads as code 0 and no message. */
  lemma EmptySlotReadsAsNoError(slots: Slots, t: ThreadId)
    requires Slot(slots, t) == None
    ensures LastCode(slots, t) == 0 && LastMessage(slots, t) == None
  {
  }

  /**
   * Peeking does not clear: `last_code` and `last_message` read what a `take_last` at the
   * same point would hand back, and reading them leaves that `take_last` unchanged.
   */
  lemma PeekAgreesWithTake(slots: Slots, t: ThreadId)
    ensures var got := TakeLast(slots, t).1;
      && LastCode(slots, t) == (if got.Some? then got.value.code else 0)
      && LastMessage(slots, t) == (if got.Some? then Some(got.value.message) else None)
  {
  }

  /** A later `set_last` wins over an earlier one on the same thread. */
  lemma SetLastOverwrites(slots: Slots, t: ThreadId, first: Error, second: Error)
    ensures var r := SetLast(SetLast(slots, t, first), t, second);
      LastCode(r, t) == second.code && LastMessage(r, t) == Some(second.message)
  {
  }

  /** `take_last` right after `set_last(e)` returns exactly `e`, and a second take finds nothing. */
  lemma TakeAfterSet(slots: Slots, t: ThreadId, e: Error)
    ensures var (s1, got) := TakeLast(SetLast(slots, t, e), t);
      got == Some(e) && TakeLast(s1, t).1 == None
  {
  }
}
