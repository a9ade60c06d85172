/**
 * src/macros.rs: the boundary gates every exported function runs its arguments through.
 * Each is a pure step over (registry, last-error slots) that either lets the call
 * continue with a value or makes it return the caller-chosen sentinel after recording
 * why in the calling thread's slot. Errors are stored through the src/error.rs mapping.
 */
module Gates {
  import opened Wrappers
  import opened Text
  import opened LastError
  import opened Errors
  import opened Registry

  /** Where control goes after a gate: on with a value, or an early `return sentinel`. */
  datatype Flow<+V, +R> = Continue(value: V) | Return(sentinel: R)

  /** `MAX_CSTRING_LEN`: the default window of the bounded C-string scan (64 KiB). */
  const MaxCStringLen: nat := 65536

  /**
   * `ptr_or_return!(ptr, err_val)`: a null pointer records `NullParameter(<expr>)`, where
   * `expr` is the pointer expression's source text, and returns the sentinel.
   */
  function PtrOrReturn<R>(slots: Slots, t: ThreadId, ptr: Addr, expr: string, errVal: R): (out: (Slots, Flow<(), R>))
    ensures ptr != 0 ==> out == (slots, Continue(()))
    ensures ptr == 0 ==> out.1 == Return(errVal) && Slot(out.0, t) == Some(ToError(NullParameter(expr)))
    ensures ptr == 0 ==> LastCode(out.0, t) == 1
    ensures forall u :: u != t ==> Slot(out.0, u) == Slot(slots, u)
  {
    if ptr == 0 then (SetLast(slots, t, ToError(NullParameter(expr))), Return(errVal))
    else (slots, Continue(()))
  }

  /**
   * `deref_or_return!(ptr, T, err_val)`: the null check, then `validate_pointer::<T>`.
   * On success the call continues with the pointer as a `&T` and the slot untouched;
   * otherwise the validation error is recorded and the sentinel returned.
   */
  function DerefOrReturn<R>(r: Registry, slots: Slots, t: ThreadId, ptr: Addr, ty: TypeTag, expr: string, errVal: R)
    : (out: (Slots, Flow<Addr, R>))
    ensures out.1.Continue? <==> Validate(r, ptr, ty).Ok?
    ensures out.1.Continue? ==> out.1.value == ptr && out.0 == slots
    ensures out.1.Return? ==> out.1.sentinel == errVal
    ensures ptr == 0 ==> Slot(out.0, t) == Some(ToError(NullParameter(expr))) && LastCode(out.0, t) == 1
    ensures ptr != 0 && Validate(r, ptr, ty).Err? ==>
      Slot(out.0, t) == Some(ToError(Validate(r, ptr, ty).error))
      && LastCode(out.0, t) == (if ptr in r.tracked then 4 else 3)
    ensures forall u :: u != t ==> Slot(out.0, u) == Slot(slots, u)
  {
    var (s1, gate) := PtrOrReturn(slots, t, ptr, expr, errVal);
    match gate
    case Return(v) => (s1, Return(v))
    case Continue(_) =>
      match Validate(r, ptr, ty)
      case Ok(_) => (s1, Continue(ptr))
      case Err(e) => (SetLast(s1, t, ToError(e)), Return(errVal))
  }

  /** `deref_mut_or_return!`: the same gate; only the reference handed out is `&mut T`. */
  function DerefMutOrReturn<R>(r: Registry, slots: Slots, t: ThreadId, ptr: Addr, ty: TypeTag, expr: string, errVal: R)
    : (out: (Slots, Flow<Addr, R>))
    ensures out.1.Continue? <==> Validate(r, ptr, ty).Ok?
    ensures out.1.Continue? ==> out.1.value == ptr && out.0 == slots
    ensures out.1.Return? ==> out.1.sentinel == errVal
    ensures ptr == 0 ==> Slot(out.0, t) == Some(ToError(NullParameter(expr))) && LastCode(out.0, t) == 1
    ensures ptr != 0 && Validate(r, ptr, ty).Err? ==>
      Slot(out.0, t) == Some(ToError(Validate(r, ptr, ty).error))
      && LastCode(out.0, t) == (if ptr in r.tracked then 4 else 3)
    ensures forall u :: u != t ==> Slot(out.0, u) == Slot(slots, u)
  {
    DerefOrReturn(r, slots, t, ptr, ty, expr, errVal)
  }

  /** A null pointer is refused before the registry is consulted: the registry is irrelevant. */
  lemma NullDerefSkipsRegistry<R>(r1: Registry, r2: Registry, slots: Slots, t: ThreadId, ty: TypeTag, expr: string, errVal: R)
    ensures DerefOrReturn(r1, slots, t, 0, ty, expr, errVal) == DerefOrReturn(r2, slots, t, 0, ty, expr, errVal)
  {
  }

  /** `box_tracked!(value)`: `Box::into_raw` yields `ptr`, which is tracked as a `T` in a box. */
  function BoxTracked(r: Registry, ptr: Addr, ty: TypeTag): (out: (Registry, Addr))
    ensures out.1 == ptr
    ensures ptr == 0 ==> out.0 == r
    ensures ptr != 0 ==> InsertedOnly(r, out.0, ptr, Entry(ty, Boxed))
    ensures ptr != 0 ==> Validate(out.0, ptr, ty).Ok?
  {
    (TrackBox(r, ptr, ty), ptr)
  }

  /** `arc_tracked!(value)`: as `box_tracked!`, through `Arc::into_raw` and `track_arc`. */
  function ArcTracked(r: Registry, ptr: Addr, ty: TypeTag): (out: (Registry, Addr))
    ensures out.1 == ptr
    ensures ptr == 0 ==> out.0 == r
    ensures ptr != 0 ==> InsertedOnly(r, out.0, ptr, Entry(ty, Shared))
    ensures ptr != 0 ==> Validate(out.0, ptr, ty).Ok?
  {
    (TrackArc(r, ptr, ty), ptr)
  }

  /** What a pointer to C bytes designates: null, or readable memory starting there. */
  datatype CPtr = Null | Points(memory: seq<byte>)

  /** Position of the first NUL of `w`, if any. */
  function FindNul(w: seq<byte>): (r: Option<nat>)
    ensures r.Some? ==> r.value < |w| && w[r.value] == 0 && forall j :: 0 <= j < r.value ==> w[j] != 0
    ensures r.None? ==> forall j :: 0 <= j < |w| ==> w[j] != 0
  {
    if |w| == 0 then None
    else if w[0] == 0 then Some(0)
    else
      match FindNul(w[1..])
      case None => None
      case Some(k) => Some(k + 1)
  }

  /** The bytes `from_raw_parts(ptr, limit)` exposes (no more than the memory holds). */
  function Window(memory: seq<byte>, limit: nat): seq<byte> {
    if limit <= |memory| then memory[..limit] else memory
  }

  /**
   * `cstr_or_return_with_limit!(ptr, max_len, err_val)`: null records `NullParameter`;
   * a NUL among the first `limit` bytes yields exactly the bytes before the first NUL;
   * no NUL there records `StringTooLong` and returns the sentinel.
   */
  function CstrOrReturnWithLimit<R>(slots: Slots, t: ThreadId, p: CPtr, limit: nat, expr: string, errVal: R)
    : (out: (Slots, Flow<seq<byte>, R>))
    ensures p.Null? ==> out.1 == Return(errVal) && Slot(out.0, t) == Some(ToError(NullParameter(expr)))
    ensures p.Points? && FindNul(Window(p.memory, limit)).Some? ==>
      && out.0 == slots && out.1.Continue?
      && |out.1.value| < limit && |out.1.value| < |p.memory|
      && out.1.value == p.memory[..|out.1.value|] && p.memory[|out.1.value|] == 0
      && forall j :: 0 <= j < |out.1.value| ==> out.1.value[j] != 0
    ensures p.Points? && FindNul(Window(p.memory, limit)).None? ==>
      && out.1 == Return(errVal)
      && Slot(out.0, t) == Some(ToError(StringTooLong(expr))) && LastCode(out.0, t) == 2
      && forall j :: 0 <= j < limit && j < |p.memory| ==> p.memory[j] != 0
    ensures forall u :: u != t ==> Slot(out.0, u) == Slot(slots, u)
  {
    match p
    case Null => (SetLast(slots, t, ToError(NullParameter(expr))), Return(errVal))
    case Points(memory) =>
      var w := Window(memory, limit);
      match FindNul(w)
      case Some(k) => (slots, Continue(w[..k]))
      case None => (SetLast(slots, t, ToError(StringTooLong(expr))), Return(errVal))
  }

  /** `cstr_or_return!(ptr, err_val)`: the limited scan with the 64 KiB default window. */
  function CstrOrReturn<R>(slots: Slots, t: ThreadId, p: CPtr, expr: string, errVal: R)
    : (out: (Slots, Flow<seq<byte>, R>))
    ensures p.Null? ==> out.1 == Return(errVal) && Slot(out.0, t) == Some(ToError(NullParameter(expr)))
    ensures p.Null? ==> LastCode(out.0, t) == 1
    ensures p.Points? && (exists j :: 0 <= j < MaxCStringLen && j < |p.memory| && p.memory[j] == 0) ==>
      && out.0 == slots && out.1.Continue?
      && |out.1.value| < MaxCStringLen && |out.1.value| < |p.memory|
      && out.1.value == p.memory[..|out.1.value|] && p.memory[|out.1.value|] == 0
      && forall j :: 0 <= j < |out.1.value| ==> out.1.value[j] != 0
    ensures p.Points? && (forall j :: 0 <= j < MaxCStringLen && j < |p.memory| ==> p.memory[j] != 0) ==>
      out.1 == Return(errVal) && Slot(out.0, t) == Some(ToError(StringTooLong(expr))) && LastCode(out.0, t) == 2
    ensures forall u :: u != t ==> Slot(out.0, u) == Slot(slots, u)
  {
    CstrOrReturnWithLimit(slots, t, p, MaxCStringLen, expr, errVal)
  }

  /**
   * `cstr_option!(ptr)`: null is `None` and records nothing; otherwise the bounded scan,
   * where a missing NUL records `StringTooLong` and also gives `None`.
   */
  function CstrOption(slots: Slots, t: ThreadId, p: CPtr, expr: string): (out: (Slots, Option<seq<byte>>))
    ensures p.Null? ==> out == (slots, None)
    ensures p.Points? && (exists j :: 0 <= j < MaxCStringLen && j < |p.memory| && p.memory[j] == 0) ==>
      && out.0 == slots && out.1.Some?
      && |out.1.value| < |p.memory|
      && out.1.value == p.memory[..|out.1.value|] && p.memory[|out.1.value|] == 0
      && forall j :: 0 <= j < |out.1.value| ==> out.1.value[j] != 0
    ensures p.Points? && (forall j :: 0 <= j < MaxCStringLen && j < |p.memory| ==> p.memory[j] != 0) ==>
      out.1 == None && Slot(out.0, t) == Some(ToError(StringTooLong(expr))) && LastCode(out.0, t) == 2
    ensures forall u :: u != t ==> Slot(out.0, u) == Slot(slots, u)
  {
    match p
    case Null => (slots, None)
    case Points(_) =>
      var (s, flow) := CstrOrReturn(slots, t, p, expr, ());
      (s, if flow.Continue? then Some(flow.value) else None)
  }

  /**
   * The `@local` arm of `ok_or_return!`: `Ok(v)` continues with `transform(v)` and records
   * nothing; `Err(e)` records `e` as it is and returns the sentinel.
   */
  function OkOrReturnLocal<V, W, R>(slots: Slots, t: ThreadId, res: Result<V, Error>, transform: V -> W, errVal: R)
    : (out: (Slots, Flow<W, R>))
    ensures res.Ok? ==> out == (slots, Continue(transform(res.value)))
    ensures res.Err? ==>
      out.1 == Return(errVal) && Slot(out.0, t) == Some(res.error) && LastCode(out.0, t) == res.error.code
    ensures forall u :: u != t ==> Slot(out.0, u) == Slot(slots, u)
  {
    match res
    case Ok(v) => (slots, Continue(transform(v)))
    case Err(e) => (SetLast(slots, t, e), Return(errVal))
  }

  /** A pointer fresh from `box_tracked!` passes `deref_or_return!` for the same type at once. */
  lemma BoxTrackedThenDeref<R>(r: Registry, ptr: Addr, ty: TypeTag, slots: Slots, t: ThreadId, expr: string, errVal: R)
    requires ptr != 0
    ensures var (r1, p) := BoxTracked(r, ptr, ty);
      DerefOrReturn(r1, slots, t, p, ty, expr, errVal) == (slots, Continue(ptr))
  {
  }

  /** A string terminated inside the window comes back whole, without its terminator. */
  lemma CstrExample(slots: Slots, t: ThreadId)
    ensures var hi: seq<byte> := [104, 105, 0, 120];  // "hi\0x"
      CstrOrReturn(slots, t, Points(hi), "input", -1) == (slots, Continue([104, 105]))
  {
    var hi: seq<byte> := [104, 105, 0, 120];
    assert Window(hi, MaxCStringLen) == hi;
    assert FindNul(hi) == Some(2);
    assert hi[..2] == [104, 105];
  }
}
