/** src/utils.rs, buffer guards applied to (pointer, length) pairs that arrive from C. */
module Buffers {
  import opened Wrappers
  import opened Text
  import opened Errors
  import Registry

  type Addr = Registry.Addr

  /** One past the largest `usize`: the size of the 64-bit address space. */
  const AddressSpace: int := 0x1_0000_0000_0000_0000

  /** `isize::MAX` on a 64-bit target. */
  const IsizeMax: int := 0x7FFF_FFFF_FFFF_FFFF

  /**
   * `is_safe_buffer_size(size, ptr)`: rejects an empty or over-`isize::MAX` size, and for a
   * non-null pointer rejects a buffer that would run past the top of the address space.
   * The source tests `ptr.add(size) < ptr`; an overflowing `ptr.add` is undefined
   * behaviour in Rust, so the end is computed here as the wrapping sum the comparison is
   * meant to catch.
   */
  function IsSafeBufferSize(size: Addr, ptr: Addr): (ok: bool)
    ensures ok <==> size != 0 && size <= IsizeMax && (ptr == 0 || ptr + size < AddressSpace)
  {
    if size == 0 || size > IsizeMax then false
    else if ptr != 0 && (ptr + size) % AddressSpace < ptr then false
    else true
  }

  /** A validated view of `len` bytes at `ptr`; the bytes themselves are not modelled. */
  datatype Slice = Slice(ptr: Addr, len: Addr)

  /** `safe_slice_from_raw_parts(ptr, len, param_name)`. */
  function SafeSlice(ptr: Addr, len: Addr, paramName: string): (r: Result<Slice, CimplError>)
    ensures r.Ok? <==> ptr != 0 && IsSafeBufferSize(len, ptr)
    ensures r.Ok? ==> r.value == Slice(ptr, len) && ptr + len < AddressSpace && len > 0
    ensures ptr == 0 ==> r == Err(NullParameter(paramName))
    ensures ptr != 0 && !IsSafeBufferSize(len, ptr) ==>
      r == Err(Other("Buffer size " + Decimal(len) + " is invalid for parameter '" + paramName + "'"))
  {
    if ptr == 0 then Err(NullParameter(paramName))
    else if !IsSafeBufferSize(len, ptr) then
      Err(Other("Buffer size " + Decimal(len) + " is invalid for parameter '" + paramName + "'"))
    else Ok(Slice(ptr, len))
  }
}
