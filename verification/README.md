# cimpl core, modelled in Dafny

cimpl is a Rust library for exporting Rust values across a C ABI safely. Every pointer
handed to C is registered in a process-wide **pointer registry**. The registry records the
pointer's type and the cleanup that will destroy it. Each later call through the boundary
**validates** the pointer against the registry before dereferencing it, and the universal
free `cimple_free` runs that cleanup exactly once. Raw C strings and byte arrays are
tracked in a separate **allocation tracker**. Failures never unwind into C. Instead a
sentinel is returned and a per-thread **last error** (an `i32` code and a message) is stored
for the caller to read. The **gate macros** (`deref_or_return!`, `cstr_or_return!`, …)
package these checks for each exported function.

Two example libraries built on cimpl are also modelled:
- a `ValueConverter`, a byte buffer of at most 8 bytes read and written as little-endian
  integers, UTF-8 text or hex;
- the secret-message processor's text transforms: ROT13, vowel removal, substitution, hex,
  length validation and counting, with their error codes 100–103.

## How the model is built

- Everything is a pure function over immutable values. Each module follows one source unit:
  - `Registry`, `Allocations` and `Buffers` model `src/utils.rs`;
  - `Errors` models `src/error.rs`;
  - `CimplErrors` models `src/cimpl_error.rs`;
  - `Gates` models `src/macros.rs`;
  - `ValueConverter` models `examples/reference/src/lib.rs`;
  - `Secret` models `reference-example/src/lib.rs`.
- Shared helpers:
  - `Wrappers` holds `Option` and `Result`.
  - `Text` renders and parses decimal and hex digits, modelling `{}` and `{:x}`.
  - `Hex` holds the `{:02x}` encoder and the `u8::from_str_radix` pair decoder that both libraries use.
  - `Utf8` holds well-formedness per Table 3-7 of the Unicode Standard, and `str::len`.
  - `LastError` holds the per-thread slots.
- The registry is a `map<Addr, Entry>`. An entry is a type tag and an ownership strategy
  (`Boxed`, `Shared`, `SharedMutex`).
- Running a cleanup closure appends `Cleanup(addr, strategy)` to the `destroyed` log. So
  "destroyed exactly once" is a statement about that log.
- `TypeId` is a `TypeTag` compared by equality. `MutexOf(t)` is its own tag, because
  `track_arc_mutex` registers `Mutex<T>` and not `T`.
- Each registry call is one atomic transition, as under the registry mutex. Concurrent
  frees are modelled as some serial order of those transitions (`FreeAll`).
- The thread-local last-error slot is a `map<ThreadId, Option<Error>>`. A thread missing
  from the map has an empty slot.
- The two libraries keep separate slots: `src/error.rs` and `src/cimpl_error.rs` each own
  one thread-local.
- `usize` and `u64` values are bounded subset types of `int`. Signed integers are stored
  as their two's complement, written out explicitly.
- `is_safe_buffer_size` tests `ptr.add(size) < ptr`. In Rust an overflowing `ptr.add` is
  undefined behaviour, not a wrap, and the function's safety section makes the caller promise
  it never happens. The model states the guard the comparison is meant to be: the buffer must
  end inside the 64-bit address space.
- A Rust `&str` is modelled in one of two ways:
  - as its UTF-8 bytes where the source works on bytes: `to_hex`, `from_hex`, `from_string`;
  - as a `string` of scalar values where it works on `chars()`: ROT13, vowels, counts.
- `validate_length` and `secret_is_valid_hex` take the byte length of a `string` via
  `Utf8.EncodedLength`.

Points worth knowing about the code:
- Releasing or validating an unknown address reports `InvalidHandle` (code 3), not
  `UntrackedPointer`.
- Validating address 0 reports `NullParameter("pointer")`.
- Freeing address 0 succeeds and does nothing.
- A poisoned lock is never reported as an error: `.lock().unwrap()` panics instead.
- The universal free is defined as `cimple_free` (`src/utils.rs:211`). `src/lib.rs:238-239`
  re-exports `utils::cimpl_free`, a name `src/utils.rs` does not define. The model uses the
  defined function.
- `to_c_string` records its result only in the allocation tracker, while `cimple_free` asks
  only the pointer registry. Freeing a returned string with the universal free, as its
  documentation shows, therefore fails with code 3 and leaks the string
  (`Scenarios.CStringThroughCimpleFree`); see "## Findings".
- The registry and the gates build `src/error.rs`'s `CimplError` enum variants and convert
  them with its `From` mapping (codes 1–5). `src/cimpl_error.rs`, with codes 1–7 and hex
  pointer messages, is a separate unit of its own.
- `free_c_string` and `free_c_bytes` share the untracking step, which ignores the recorded
  kind. So `free_c_string` accepts a pointer from `to_c_bytes` and drops it as a `CString`
  (`Allocations.FreeCStringAcceptsByteArray`).
- `free_c_bytes` rebuilds the pointer as a `Box<u8>`, one byte, whatever length `to_c_bytes`
  leaked. Every release is logged with its destructor and layout size, so the model shows the
  mismatch; see "## Findings".

## Model

| member | source | states |
|---|---|---|
| Registry.Track | src/utils.rs:51-58 | a null pointer leaves the registry unchanged; otherwise the address maps to exactly (tag, strategy), every other entry and the cleanup log are untouched, and a new address raises the live count by one |
| Registry.LiveCount | src/utils.rs:95-99 | `tracked.len()`: zero exactly for the empty map, and at least one while any address is tracked |
| Registry.Validate | src/utils.rs:61-72 | four outcomes, each as an if-and-only-if: 0 gives NullParameter, tracked with the expected tag gives Ok, tracked with another tag gives WrongHandleType, untracked gives InvalidHandle; the registry is an input only, so it cannot change |
| Registry.Free | src/utils.rs:75-90 | null is a no-op success; an untracked address fails with InvalidHandle and changes nothing; a tracked one is removed, its cleanup is logged exactly once with its strategy, and the live count drops by one |
| Registry.TrackBox | src/utils.rs:118-128 | null changes nothing; otherwise the address is bound to (T, Boxed) with every other entry and the cleanup log untouched, it validates as T, and freeing it logs exactly one `Boxed` cleanup |
| Registry.TrackArc | src/utils.rs:130-140 | null changes nothing; otherwise the address is bound to (T, Shared) with every other entry and the cleanup log untouched, it validates as T, and freeing it logs exactly one `Shared` cleanup |
| Registry.TrackArcMutex | src/utils.rs:142-152 | null changes nothing; otherwise the address is bound to (`Mutex<T>`, SharedMutex) with everything else untouched; it validates as `Mutex<T>`, is refused with WrongHandleType as a plain `T`, and freeing it logs exactly one `SharedMutex` cleanup |
| Registry.MutexTagDiffers | src/utils.rs:146-152 | the tag of `Mutex<T>` never equals the tag of `T` |
| Registry.CimpleFree | src/utils.rs:211-219 | returns 0 exactly when the free succeeds, leaving the error slot alone: null changes nothing, and a tracked address is removed with its cleanup logged once with its strategy; otherwise -1, with the registry unchanged and code 3 in the calling thread's slot only |
| Registry.UnfreedAtShutdown | src/utils.rs:93-105 | the shutdown warning fires exactly when some pointer is still tracked |
| Registry.DoubleFreeRejected | src/utils.rs:75-90 | after a successful free the address neither validates nor frees again, and the second free changes nothing |
| Registry.TypeConfusionRejected | src/utils.rs:61-72 | a pointer tracked as one tag is refused with WrongHandleType for any other tag |
| Registry.ValidationIsNoLease | src/utils.rs:61-72 | a pointer that validated is refused with InvalidHandle once freed, so validation does not protect the later dereference |
| Registry.FreeAllUntracked | src/utils.rs:80-85 | any number of frees of an untracked address all fail and leave the registry unchanged |
| Registry.ReleaseRace | src/utils.rs:79-89 | n ≥ 1 serialised frees of one live address give exactly one success, remove it and log its cleanup exactly once |
| Registry.TrackAllCounts | src/utils.rs:51-58 | tracking n distinct new non-null addresses raises the live count by exactly n and keeps every earlier entry |
| Registry.FreeAllCounts | src/utils.rs:75-90 | freeing k distinct tracked addresses succeeds k times, lowers the live count by k and logs k cleanups |
| Registry.LeakAccounting | src/utils.rs:51-90 | from an empty registry, n registrations then k ≤ n releases leave exactly n − k live pointers |
| Allocations.TrackAlloc | src/utils.rs:248-259 | null is ignored; otherwise the address records (kind, size), and every other record and the freed log are unchanged |
| Allocations.Untrack | src/utils.rs:262-268 | true exactly for null or a tracked pointer; a non-null pointer is no longer tracked afterwards |
| Allocations.ToCString | src/utils.rs:418-429 | text containing a NUL byte gives null and tracks nothing; otherwise the non-null pointer is recorded as a string of len + 1 bytes, every other record and the release log unchanged |
| Allocations.ToCBytes | src/utils.rs:444-449 | the non-null pointer is recorded as a byte array of exactly the vector's length; every other record and the release log are unchanged |
| Allocations.FreeCString | src/utils.rs:466-483 | true exactly for null or a tracked pointer, which is untracked and released once as a `CString` of its recorded size; anything else returns false and changes nothing |
| Allocations.FreeCBytes | src/utils.rs:500-515 | true exactly for null or a tracked pointer, which is untracked and released once through `Box<u8>`, a 1-byte layout; anything else returns false and changes nothing |
| Allocations.DoubleFreeCString | src/utils.rs:522-538 | a string from `to_c_string` frees once with true, then false with nothing changed; the one release matches its allocation |
| Allocations.DoubleFreeCBytes | src/utils.rs:550-562 | an array from `to_c_bytes` frees once with true, then false with nothing changed; exactly one release is logged, of one byte |
| Allocations.FreeCBytesLayoutMismatch | src/utils.rs:500-515 | the release `free_c_bytes` performs matches the allocation `to_c_bytes` made exactly when the array holds one byte |
| Allocations.FreeBoxedSlice | src/utils.rs:500-515 | the intended `free_c_bytes`: same results and untracking, but the pointer is released as a `Box<[u8]>` of the recorded length, which matches any byte-array allocation |
| Allocations.BoxedSliceReleaseMatches | src/utils.rs:500-515 | with the intended destructor, an array from `to_c_bytes` frees once with true, then false, and its one release matches the allocation for every length |
| Allocations.FreeCStringAcceptsByteArray | src/utils.rs:466-483 | `free_c_string` returns true for a pointer from `to_c_bytes`, untracks it, and logs a release that matches nothing allocated |
| Allocations.NulStringYieldsNull | src/utils.rs:587-593 | "Hello\0World" converts to null and the table is unchanged |
| Allocations.LeakSummary | src/utils.rs:271-292 | the shutdown fold's string and array counts add up to the number of live allocations; each count and byte total equals the order-independent sum over the table |
| Buffers.IsSafeBufferSize | src/utils.rs:353-368 | true exactly when the size is non-zero, at most `isize::MAX`, and (for a non-null pointer) `ptr + size` does not wrap the 64-bit address space |
| Buffers.SafeSlice | src/utils.rs:387-403 | a null pointer gives NullParameter(param); an unsafe size gives Other with the size and parameter named; otherwise exactly the slice (ptr, len) |
| Errors.New | src/error.rs:111-113 | the error carries exactly the given code and message |
| Errors.ToError | src/error.rs:46-56 | codes 1–5, each code if and only if its variant; the message is `"<Kind>: <detail>"` |
| Errors.DisplayNamesKind | src/error.rs:149-153 | displaying a converted error shows the kind name, then ": ", then the detail |
| Errors.CodeDeterminesKind | src/error.rs:46-56 | two errors with the same code have the same kind |
| Errors.HandleMessageCarriesId | src/error.rs:51-52 | the handle id printed in a handle error's message parses back to the id |
| LastError.SetLast | src/error.rs:136-138 | afterwards the thread reads the new code and message; every other thread's slot is unchanged |
| LastError.LastCode | src/error.rs:122-133 | the stored code, or 0 when the slot is empty |
| LastError.LastMessage | src/error.rs:115-120 | Some exactly when an error is stored, and then a copy of its message |
| LastError.PeekAgreesWithTake | src/error.rs:115-146 | `last_code` and `last_message` read what `take_last` would hand back at the same point, without clearing |
| LastError.TakeLast | src/error.rs:144-146 | returns what the slot held and leaves it reading code 0 and no message; other threads are unchanged |
| LastError.EmptySlotReadsAsNoError | src/error.rs:118-133 | an empty slot reads as code 0 and no message |
| LastError.SetLastOverwrites | src/error.rs:136-138 | a second `set_last` replaces the first entirely |
| LastError.TakeAfterSet | src/error.rs:144-146 | `take_last` after `set_last(e)` returns `e` and clears the slot |
| CimplErrors.New | src/cimpl_error.rs:77-91 | `code()` and `message()` return the values given to `new` |
| CimplErrors.NullParameter | src/cimpl_error.rs:93-95 | code 1; the message is "NullParameter: " followed by the parameter |
| CimplErrors.StringTooLong | src/cimpl_error.rs:97-99 | code 2; the message is "StringTooLong: " followed by the parameter |
| CimplErrors.UntrackedPointer | src/cimpl_error.rs:101-103 | code 3; the message is "UntrackedPointer: 0x" followed by lower-case hex that parses back to the address |
| CimplErrors.WrongPointerType | src/cimpl_error.rs:105-107 | code 4; the same hex rendering after "WrongPointerType: 0x" |
| CimplErrors.MutexPoisoned | src/cimpl_error.rs:109-111 | code 6; the message is exactly "MutexPoisoned: thread panic detected" |
| CimplErrors.InvalidBufferSize | src/cimpl_error.rs:113-115 | code 7; the message is "InvalidBufferSize: ", then decimal digits that parse back to the size, then " for '<param>'" |
| CimplErrors.Other | src/cimpl_error.rs:117-119 | code 5; the message is "Other: " followed by the text |
| CimplErrors.ConstructorCodesDistinct | src/cimpl_error.rs:93-119 | the seven constructors carry seven distinct codes, 1 to 7 |
| CimplErrors.PointerMessagesExample | src/cimpl_error.rs:191-204 | 0xdeadbeef and 0x12345678 render as "0xdeadbeef" and "0x12345678" |
| CimplErrors.LastErrorStorageExample | src/cimpl_error.rs:230-265 | stored errors read back by code and message, a second store overwrites, and `take_last` clears the slot |
| CimplErrors.ThreadIsolationExample | src/cimpl_error.rs:289-307 | a fresh thread starts at code 0; setting its error leaves the spawning thread's code 1 in place |
| CimplErrors.DisplayExample | src/cimpl_error.rs:267-272 | `Display` shows exactly the message |
| Gates.PtrOrReturn | src/macros.rs:166-174 | null records NullParameter naming the argument expression (code 1) and returns the sentinel; non-null continues with the slots untouched |
| Gates.DerefOrReturn | src/macros.rs:54-65 | continues with the pointer exactly when validation succeeds, leaving the slots untouched; null records code 1; a failed validation records that error (code 4 if tracked, 3 otherwise) and returns the sentinel; other threads are unaffected |
| Gates.DerefMutOrReturn | src/macros.rs:106-117 | the same gate for `&mut T`: continues exactly when validation succeeds; null records NullParameter(expr) (code 1); a failed validation records that error (code 4 if tracked, 3 otherwise); other threads are unaffected |
| Gates.NullDerefSkipsRegistry | src/macros.rs:54-58 | a null pointer gives the same outcome whatever the registry holds, so no lookup takes place |
| Gates.BoxTracked | src/macros.rs:140-147 | returns the pointer; null changes nothing; otherwise the pointer is bound to (T, Boxed) with every other entry and the cleanup log untouched, and validates as T |
| Gates.ArcTracked | src/macros.rs:152-159 | returns the pointer; null changes nothing; otherwise the pointer is bound to (T, Shared) with every other entry and the cleanup log untouched, and validates as T |
| Gates.FindNul | src/macros.rs:192 | `CStr::from_bytes_until_nul`: the position found holds the first NUL of the window, and none means no NUL at all |
| Gates.CstrOrReturnWithLimit | src/macros.rs:208-231 | null records NullParameter; a NUL within the first `limit` bytes yields exactly the bytes before the first NUL, with the slots untouched; otherwise StringTooLong (code 2) and the sentinel |
| Gates.CstrOrReturn | src/macros.rs:179-203 | the same three outcomes with the fixed 65536-byte window: null records NullParameter(expr) (code 1); the bytes before the first NUL with the slots untouched; StringTooLong(expr) (code 2) and the sentinel |
| Gates.CstrOption | src/macros.rs:331-354 | null is None with no error recorded; a NUL within 65536 bytes gives Some of the bytes before it; otherwise None with StringTooLong recorded |
| Gates.OkOrReturnLocal | src/macros.rs:249-258 | `Ok(v)` continues with `transform(v)` and records nothing; `Err(e)` records `e` unchanged and returns the sentinel |
| Gates.BoxTrackedThenDeref | src/macros.rs:140-147 | a pointer fresh from `box_tracked!` passes `deref_or_return!` for the same type at once |
| Gates.CstrExample | src/macros.rs:179-203 | "hi\0x" reads as "hi", with nothing recorded |
| Hex.EncodeByte | reference-example/src/lib.rs:139-141 | two lower-case hex digits whose value is the byte, high nibble first |
| Hex.Encode | reference-example/src/lib.rs:139-141 | two lower-case hex digits per byte |
| Hex.ParsePair | reference-example/src/lib.rs:150-153 | a pair parses exactly when both are ASCII hex digits of either case, or a '+' then one digit; the value is 16·high + low, or the single digit |
| Hex.DecodePairs | reference-example/src/lib.rs:149-155 | succeeds exactly when every two-character pair parses, and then byte k is the value of pair k; otherwise the error is the first pair that fails, all pairs before it having parsed |
| Hex.DecodeEncode | reference-example/src/lib.rs:139-155 | decoding the encoding of any byte sequence gives it back |
| Utf8.EncodedLength | reference-example/src/lib.rs:163-165 | `str::len` is at least the char count, and equals it exactly when every char is ASCII |
| ValueConverter.FromU32 | examples/reference/src/lib.rs:63-67 | exactly 4 bytes whose little-endian value is v |
| ValueConverter.FromI32 | examples/reference/src/lib.rs:56-60 | exactly 4 bytes whose little-endian value is v's two's complement |
| ValueConverter.FromU64 | examples/reference/src/lib.rs:77-81 | exactly 8 bytes whose little-endian value is v |
| ValueConverter.FromI64 | examples/reference/src/lib.rs:70-74 | exactly 8 bytes whose little-endian value is v's two's complement |
| ValueConverter.FromBytes | examples/reference/src/lib.rs:84-97 | empty gives EmptyValue; more than 8 bytes gives BufferTooLarge(len, 8); otherwise the bytes are stored verbatim |
| ValueConverter.FromString | examples/reference/src/lib.rs:100-114 | the same checks on the UTF-8 byte length; the stored bytes are the text's bytes |
| ValueConverter.FromHex | examples/reference/src/lib.rs:117-141 | checks in order: empty, odd length, first bad pair ("invalid byte: …"), more than 8 bytes; succeeds exactly when none applies, and stores the decoded bytes |
| ValueConverter.ToU32 | examples/reference/src/lib.rs:156-166 | OutOfRange unless there are exactly 4 bytes; otherwise the value whose 4-byte little-endian encoding is the buffer |
| ValueConverter.ToI32 | examples/reference/src/lib.rs:144-154 | OutOfRange unless there are exactly 4 bytes; otherwise the value whose two's complement is the buffer's little-endian value |
| ValueConverter.ToU64 | examples/reference/src/lib.rs:180-190 | the same for 8 bytes, unsigned |
| ValueConverter.ToI64 | examples/reference/src/lib.rs:168-178 | the same for 8 bytes, signed |
| ValueConverter.ToText | examples/reference/src/lib.rs:197-200 | succeeds exactly when the bytes are well-formed UTF-8, and then returns them |
| ValueConverter.ToHex | examples/reference/src/lib.rs:203-205 | 2·len lower-case hex digits |
| ValueConverter.Len | examples/reference/src/lib.rs:207-210 | half the length of `to_hex` |
| ValueConverter.AsBytes | examples/reference/src/lib.rs:191-194 | `len()` bytes, exactly the ones `to_hex` encodes |
| ValueConverter.IsEmpty | examples/reference/src/lib.rs:212-215 | true exactly when `len()` is 0, equivalently when `to_hex` is empty |
| ValueConverter.ReadWritten | examples/reference/src/lib.rs:56-81 | reading back n little-endian bytes gives the value written |
| ValueConverter.WriteRead | examples/reference/src/lib.rs:144-189 | writing back the value read from n bytes gives the same bytes |
| ValueConverter.ConstructedLengthBounds | examples/reference/src/lib.rs:84-141 | every converter built from bytes or hex holds 1 to 8 bytes and is not empty |
| ValueConverter.RoundTripU32 | examples/reference/src/lib.rs:63-166 | `to_u32(from_u32(v)) == v` |
| ValueConverter.RoundTripU64 | examples/reference/src/lib.rs:77-190 | `to_u64(from_u64(v)) == v` |
| ValueConverter.RoundTripI32 | examples/reference/src/lib.rs:56-154 | `to_i32(from_i32(v)) == v`, negatives included |
| ValueConverter.RoundTripI64 | examples/reference/src/lib.rs:70-178 | `to_i64(from_i64(v)) == v`, negatives included |
| ValueConverter.BytesRoundTripI32 | examples/reference/src/lib.rs:144-154 | any 4-byte converter read as i32 and rebuilt gives the same bytes |
| ValueConverter.BytesRoundTripI64 | examples/reference/src/lib.rs:168-178 | any 8-byte converter read as i64 and rebuilt gives the same bytes |
| ValueConverter.HexRoundTrip | examples/reference/src/lib.rs:117-205 | `from_hex(to_hex(c))` gives back every valid converter |
| ValueConverter.NegativeI32ThroughHex | examples/reference/bindings/python/example.py:47-56 | -12345 survives i32 → hex → converter → i32 |
| Secret.ToError | reference-example/src/lib.rs:69-87 | codes 100–103, each code if and only if its variant; the message is the variant name, ": ", then the detail |
| Secret.Rot13 | reference-example/src/lib.rs:114-123 | same length; each char is mapped on its own |
| Secret.Rot13Shifts | reference-example/src/lib.rs:117-121 | a–m/A–M move up 13, n–z/N–Z move down 13, everything else is unchanged, and letters keep their case |
| Secret.Rot13Involution | reference-example/src/lib.rs:114-123 | ROT13 applied twice is the identity |
| Secret.Rot13Example | reference-example/bindings/python/test.py:12-14 | "Hello World" becomes "Uryyb Jbeyq" |
| Secret.RemoveVowels | reference-example/src/lib.rs:126-131 | no vowel of either case remains, and the output length is the input's char count minus `count_vowels` |
| Secret.RemoveVowelsKeepsOthers | reference-example/src/lib.rs:126-131 | every non-vowel keeps its number of occurrences |
| Secret.RemoveVowelsSplit | reference-example/src/lib.rs:126-131 | removal distributes over concatenation, so the surviving characters keep their order |
| Secret.RemoveVowelsExample | reference-example/bindings/python/test.py:22-23 | "Hello World" becomes "Hll Wrld" |
| Secret.CountsBounded | reference-example/src/lib.rs:175-188 | vowels plus consonants never exceed the char count |
| Secret.VowelCountMeaning | reference-example/src/lib.rs:175-180 | `count_vowels` is at most the char count, zero exactly when no char is a vowel, and the char count exactly when every char is |
| Secret.ConsonantCountMeaning | reference-example/src/lib.rs:183-188 | `count_consonants` is at most the char count, zero exactly when no char is an ASCII non-vowel letter, and the char count exactly when every char is one |
| Secret.CountChars | reference-example/src/lib.rs:307-311 | the char count is at most the UTF-8 byte length, and equal to it exactly when the text is ASCII |
| Secret.CountWords | reference-example/src/lib.rs:191-193 | the single pass counts exactly the maximal runs of non-whitespace chars |
| Secret.CountingExample | reference-example/bindings/python/test.py:94-105 | "Hello World" has 11 chars, 3 vowels and 7 consonants |
| Secret.WordsExample | reference-example/bindings/python/test.py:108-109 | "Hello World" has 2 words |
| Secret.Substitute | reference-example/src/lib.rs:134-136 | same length; each occurrence of `from` becomes `to` and nothing else changes |
| Secret.SubstituteUndo | reference-example/src/lib.rs:134-136 | substituting back undoes a substitution whose target did not occur in the input |
| Secret.ToHex | reference-example/src/lib.rs:139-141 | two lower-case hex digits per UTF-8 byte |
| Secret.FromHex | reference-example/src/lib.rs:144-160 | odd length gives InvalidHex("odd length"); a bad pair gives InvalidHex(pair); bytes that are not UTF-8 give InvalidFormat; succeeds exactly otherwise, with the decoded bytes |
| Secret.HexRoundTrip | reference-example/src/lib.rs:139-160 | `from_hex(to_hex(s)) == s` for every well-formed UTF-8 text |
| Secret.HexExample | reference-example/bindings/python/test.py:37-44 | "Hello" encodes to "48656c6c6f" and decodes back |
| Secret.InvalidHexExample | reference-example/bindings/python/test.py:46-53 | "invalid" is refused as InvalidHex, code 100 |
| Secret.BadUtf8Example | reference-example/src/lib.rs:158-159 | "ff" decodes to a byte that starts no UTF-8 sequence, which is refused as InvalidFormat, code 101 |
| Secret.PlusSignAccepted | reference-example/src/lib.rs:151-153 | the pair "+f" is accepted as the byte 15 |
| Secret.IsValidHexText | reference-example/src/lib.rs:294-298 | true exactly when the text has even length and every char is an ASCII hex digit |
| Secret.ValidateLength | reference-example/src/lib.rs:163-172 | a byte length below min gives TooShort(len, min), checked first; above max gives TooLong(len, max); Ok exactly when min ≤ len ≤ max |
| Secret.ValidationExample | reference-example/bindings/python/test.py:59-77 | "hello" fits 1..10; "hi" is TooShort (102) for 5..10; "hello world" is TooLong (103) for 1..5 |
| Secret.HexTextExample | reference-example/bindings/python/test.py:85-86 | "48656c6c6f" is valid hex text and "xyz" is not |
| Scenarios.LifecycleScenario | src/utils.rs:51-90 | a boxed String validates as String and not as i32, frees once leaving nothing live, and a second free is refused |
| Scenarios.DoubleFreeThroughBoundary | example/example.c:93-109 | `cimple_free` returns 0, then -1 with code 3 and the message "InvalidHandle: <address>" |
| Scenarios.ThreadsSeeOwnErrors | src/error.rs:19-21 | two threads failing at once each read only their own code: 4 for the wrong type, 3 for the unknown address |
| Scenarios.CStringThroughCimpleFree | src/utils.rs:196-219 | a string from `to_c_string` passed to `cimple_free` gives -1 and code 3 with the registry unchanged, and stays recorded in the allocation tracker with nothing released |
| Scenarios.UniversalFree | src/utils.rs:196-219 | the documented universal free: 0 exactly for null, a registered pointer or a tracked allocation; a registered pointer is released through the registry, a tracked allocation once with a release matching it; otherwise -1 with InvalidHandle and nothing changed |
| Scenarios.CStringThroughUniversalFree | src/utils.rs:196-219 | with the documented universal free, a string from `to_c_string` is released once as allocated, and a second free gives -1 and code 3 |

## Left out

- Actual memory: `Box::from_raw`, `Arc::from_raw`, `CString::from_raw` and the boxed cleanup
  closures are not modelled. A cleanup is represented by the strategy it reverses, logged when
  it runs. Arc reference counts are not visible.
- The values behind pointers: a registered value is not stored. So "validate exposes the
  value" is represented only by validation succeeding for that address.
- Concurrency: `Mutex`, `OnceLock` and thread scheduling are not modelled. Each registry call
  is one atomic step. `validate` drops the lock before the gate dereferences; the model claims
  no atomicity there, and `Registry.ValidationIsNoLease` shows the gap.
- Lock poisoning: `.lock().unwrap()` panics on a poisoned mutex, so no model operation ever
  produces code 6. `CimplErrors.MutexPoisoned` is modelled only as a constructor.
- Shutdown output: the `eprintln!` text of both `Drop` impls and of the failed frees is left
  out. Only the counts are kept (`Registry.UnfreedAtShutdown`, `Allocations.LeakSummary`).
- `get_registry`, `get_allocations`, `validate_pointer`, `free_tracked_pointer`,
  `track_string_allocation`, `track_bytes_allocation` and `untrack_allocation` only forward to
  the global table. They are folded into the operations they call.
- `deref_or_return_null/_neg/_zero/_false`, `deref_mut_or_return_null/_neg`,
  `ok_or_return_int/_null/_zero/_false`, `ptr_or_return_null/_int` and
  `cstr_or_return_null/_int` fix only the sentinel. They are instances of the generic gates.
- The non-`@local` arm of `ok_or_return!` goes through `Error::from_mapper`, which is not part
  of this model.
- Gates.CstrOrReturnWithLimit: `from_raw_parts(ptr, limit)` reads `limit` bytes whatever
  memory holds. The model reads at most the memory it is given, which stands for the caller's
  safety promise.
- The `CStr` bytes are returned as bytes. `to_string_lossy` replacement of invalid UTF-8 is not
  modelled.
- Hex text input (`Hex.DecodePairs`, `ValueConverter.FromHex`, `Secret.FromHex`) is limited to
  ASCII. The source slices `&hex[i..i + 2]` by byte index, which panics on a non-ASCII
  boundary.
- `u8::from_str_radix` accepts a leading '+' (`Secret.PlusSignAccepted`). The round trips are
  stated for the output of `to_hex`, which never contains one.
- Secret.FromHex: returns the decoded UTF-8 bytes rather than a Rust `String`. They are the
  same text.
- Secret.IsValidHexText: reads the text the gate produced. The C-string gate in front of it is
  modelled in `Gates`.
- `secret_reverse`, `secret_uppercase`, `secret_to_bytes`, `secret_from_bytes`, the
  `SecretMessage` functions and the other exported wrappers in `reference-example/src/lib.rs`
  are compositions of the gates with the transforms modelled here. They are not modelled one
  by one. `secret_count_chars` is `Secret.CountChars`, the char count.
- The `thiserror` display strings of `ValueConverter`'s error enum are not modelled.
- ValueConverter.ToText: the `InvalidUtf8` detail is a fixed text. The source stores
  `Utf8Error::to_string()`, which names the index of the first bad byte and the length of
  the bad sequence; the model does not compute those.
- Buffers.IsSafeBufferSize: gives the intended guard. The source's `ptr.add(size) < ptr` is
  undefined behaviour when it overflows, so what the compiled check does in that case is not
  modelled.
- Allocations.FreeCString: logs the recorded size for the release. `CString::from_raw`
  re-measures up to the first NUL; for a pointer from `to_c_string` that is the same size,
  and for any other pointer the real size is not modelled.
- The stream, uuid and c2pa examples are left out, along with all Python, C and C++ bindings
  and the build scripts. Their behaviour lives in foreign callbacks or crates that are not
  part of this model.

## Findings

| source | as written | input that shows it | evidently intended | confidence | as-written member | corrected member |
|---|---|---|---|---|---|---|
| src/utils.rs:500-515 | `to_c_bytes` leaks a `Box<[u8]>` of `len` bytes; `free_c_bytes` rebuilds it as `Box::from_raw(ptr as *mut u8)`, a `Box<u8>`, and drops a 1-byte layout | `to_c_bytes(vec![1, 2, 3, 4, 5])` then `free_c_bytes`: 5 bytes allocated, 1 byte released; `vec![]` releases 1 byte at a dangling pointer that was never allocated | rebuild the `Box<[u8]>` with the recorded length, releasing exactly what was allocated | high; not executed | Allocations.FreeCBytesLayoutMismatch | Allocations.BoxedSliceReleaseMatches |
| src/utils.rs:196-219 | `cimple_free` looks only in the pointer registry, but `to_c_string` records only in the allocation tracker | `to_c_string("abc")` then `cimple_free` on the result, as the doc example does: -1, code 3, and the string is never released | the universal free also releases pointers the allocation tracker holds, with the destructor their kind calls for | medium; not executed | Scenarios.CStringThroughCimpleFree | Scenarios.CStringThroughUniversalFree |
