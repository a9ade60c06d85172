/**
 * src/cimpl_error.rs: the `CimplError` struct, a code and a message built by one
 * constructor per infrastructure failure (codes 1..7), with its own thread-local slot.
 * Its shape is `LastError.Error`; its slot is a `LastError.Slots` separate from the one
 * src/error.rs keeps.
 */
module CimplErrors {
  import opened Wrappers
  import opened Text
  import opened LastError
  import Errors

  /** `CimplError::new(code, message)`. */
  function New(code: int32, message: string): (e: Error)
    ensures Code(e) == code && Message(e) == message
  {
    Error(code, message)
  }

  /** `code()`. */
  function Code(e: Error): int32 {
    e.code
  }

  /** `message()`. */
  function Message(e: Error): string {
    e.message
  }

  /** `s` begins with `p`. */
  predicate StartsWith(s: string, p: string) {
    |p| <= |s| && s[..|p|] == p
  }

  function NullParameter(param: string): (e: Error)
    ensures Code(e) == 1
    ensures StartsWith(Message(e), "NullParameter: ") && Message(e)[|"NullParameter: "|..] == param
  {
    New(1, "NullParameter: " + param)
  }

  function StringTooLong(param: string): (e: Error)
    ensures Code(e) == 2
    ensures StartsWith(Message(e), "StringTooLong: ") && Message(e)[|"StringTooLong: "|..] == param
  {
    New(2, "StringTooLong: " + param)
  }

  /** The address is printed as `0x` and lower-case hex digits, and reads back exactly. */
  function UntrackedPointer(ptr: Errors.u64): (e: Error)
    ensures Code(e) == 3
    ensures StartsWith(Message(e), "UntrackedPointer: 0x")
    ensures var digits := Message(e)[|"UntrackedPointer: 0x"|..];
      (forall i :: 0 <= i < |digits| ==> IsDigit(digits[i], 16)) && ParseDigits(digits, 16) == ptr
  {
    var e := New(3, "UntrackedPointer: 0x" + LowerHex(ptr));
    assert Message(e)[|"UntrackedPointer: 0x"|..] == LowerHex(ptr);
    DigitsRoundTrip(ptr, 16);
    e
  }

  function WrongPointerType(ptr: Errors.u64): (e: Error)
    ensures Code(e) == 4
    ensures StartsWith(Message(e), "WrongPointerType: 0x")
    ensures var digits := Message(e)[|"WrongPointerType: 0x"|..];
      (forall i :: 0 <= i < |digits| ==> IsDigit(digits[i], 16)) && ParseDigits(digits, 16) == ptr
  {
    var e := New(4, "WrongPointerType: 0x" + LowerHex(ptr));
    assert Message(e)[|"WrongPointerType: 0x"|..] == LowerHex(ptr);
    DigitsRoundTrip(ptr, 16);
    e
  }

  function Other(msg: string): (e: Error)
    ensures Code(e) == 5
    ensures StartsWith(Message(e), "Other: ") && Message(e)[|"Other: "|..] == msg
  {
    New(5, "Other: " + msg)
  }

  /** `mutex_poisoned()`: one fixed message. */
  function MutexPoisoned(): (e: Error)
    ensures Code(e) == 6
    ensures StartsWith(Message(e), "MutexPoisoned: ")
    ensures Message(e)[|"MutexPoisoned: "|..] == "thread panic detected"
  {
    New(6, "MutexPoisoned: thread panic detected")
  }

  /** `invalid_buffer_size(size, param)`: `"InvalidBufferSize: <size> for '<param>'"`. */
  function InvalidBufferSize(size: nat, param: string): (e: Error)
    ensures Code(e) == 7
    ensures StartsWith(Message(e), "InvalidBufferSize: ")
    ensures var rest := Message(e)[|"InvalidBufferSize: "|..];
      var n := |Decimal(size)|;
      n <= |rest| && rest[..n] == Decimal(size) && ParseDigits(Decimal(size), 10) == size
      && rest[n..] == " for '" + param + "'"
  {
    var digits := Decimal(size);
    var tail := " for '" + param + "'";
    var e := New(7, "InvalidBufferSize: " + (digits + tail));
    assert Message(e)[|"InvalidBufferSize: "|..] == digits + tail;
    assert (digits + tail)[..|digits|] == digits && (digits + tail)[|digits|..] == tail;
    DigitsRoundTrip(size, 10);
    e
  }

  /** `Display`: exactly the message. */
  function Display(e: Error): string {
    Message(e)
  }

  /** The seven constructors use seven distinct codes, all inside the reserved 1..99. */
  lemma ConstructorCodesDistinct(param: string, ptr: Errors.u64, size: nat)
    ensures var codes := [Code(NullParameter(param)), Code(StringTooLong(param)),
                          Code(UntrackedPointer(ptr)), Code(WrongPointerType(ptr)),
                          Code(Other(param)), Code(MutexPoisoned()), Code(InvalidBufferSize(size, param))];
      (forall i :: 0 <= i < |codes| ==> 1 <= codes[i] <= 99)
      && (forall i, j :: 0 <= i < j < |codes| ==> codes[i] != codes[j])
  {
  }

  /** test_untracked_pointer_error and test_wrong_pointer_type_error. */
  lemma PointerMessagesExample()
    ensures Message(UntrackedPointer(0xdeadbeef)) == "UntrackedPointer: 0xdeadbeef"
    ensures Message(WrongPointerType(0x12345678)) == "WrongPointerType: 0x12345678"
  {
    DeadbeefHex();
    HexOf12345678();
  }

  lemma DeadbeefHex()
    ensures LowerHex(0xdeadbeef) == "deadbeef"
  {
    assert LowerHex(0xd) == "d";
    assert LowerHex(0xde) == "de";
    assert LowerHex(0xdea) == "dea";
    assert LowerHex(0xdead) == "dead";
    assert LowerHex(0xdeadb) == "deadb";
    assert LowerHex(0xdeadbe) == "deadbe";
    assert LowerHex(0xdeadbee) == "deadbee";
  }

  lemma HexOf12345678()
    ensures LowerHex(0x12345678) == "12345678"
  {
    assert LowerHex(0x1) == "1";
    assert LowerHex(0x12) == "12";
    assert LowerHex(0x123) == "123";
    assert LowerHex(0x1234) == "1234";
    assert LowerHex(0x12345) == "12345";
    assert LowerHex(0x123456) == "123456";
    assert LowerHex(0x1234567) == "1234567";
  }

  /** test_last_error_storage, test_error_overwrite and test_take_last_clears_error. */
  lemma LastErrorStorageExample(slots: Slots, t: ThreadId)
    ensures var s := SetLast(slots, t, New(42, "test error"));
      LastCode(s, t) == 42 && LastMessage(s, t) == Some("test error")
    ensures var s := SetLast(SetLast(slots, t, New(100, "first")), t, New(200, "second"));
      LastCode(s, t) == 200 && LastMessage(s, t) == Some("second")
    ensures var (s, taken) := TakeLast(SetLast(slots, t, New(99, "temporary")), t);
      taken.Some? && Code(taken.value) == 99 && LastCode(s, t) == 0 && LastMessage(s, t) == None
  {
  }

  /**
   * test_thread_local_isolation: a freshly spawned thread starts with code 0, and its
   * own `set_last` leaves the spawning thread's error in place.
   */
  lemma ThreadIsolationExample(slots: Slots, main: ThreadId, spawned: ThreadId)
    requires spawned != main && spawned !in slots
    ensures var s1 := SetLast(slots, main, New(1, "main thread"));
      LastCode(s1, spawned) == 0
      && LastCode(SetLast(s1, spawned, New(2, "spawned thread")), spawned) == 2
      && LastCode(SetLast(s1, spawned, New(2, "spawned thread")), main) == 1
  {
  }

  /** test_display_trait. */
  lemma DisplayExample()
    ensures Display(New(123, "display test")) == "display test"
  {
  }
}
