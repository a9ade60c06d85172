/**
 * src/error.rs: the infrastructure error kinds (`CimplError` enum) and their fixed
 * conversion into the boundary `Error` record, codes 1..5 out of the reserved 1..99.
 */
module Errors {
  import opened Text
  import opened LastError

  /** Rust's `u64`. */
  type u64 = x: int | 0 <= x < 0x1_0000_0000_0000_0000

  /** The infrastructure failures the registry and the boundary gates raise. */
  datatype CimplError =
    | NullParameter(param: string)
    | StringTooLong(param: string)
    | InvalidHandle(id: u64)
    | WrongHandleType(id: u64)
    | Other(msg: string)

  /** The variant name that leads the message. */
  function KindName(e: CimplError): string {
    match e
    case NullParameter(_) => "NullParameter"
    case StringTooLong(_) => "StringTooLong"
    case InvalidHandle(_) => "InvalidHandle"
    case WrongHandleType(_) => "WrongHandleType"
    case Other(_) => "Other"
  }

  /** What follows `"<Kind>: "`; handle ids are printed in decimal. */
  function Detail(e: CimplError): string {
    match e
    case NullParameter(p) => p
    case StringTooLong(p) => p
    case InvalidHandle(id) => Decimal(id)
    case WrongHandleType(id) => Decimal(id)
    case Other(m) => m
  }

  /** `Error::new(code, message)`. */
  function New(code: int32, message: string): (e: Error)
    ensures e.code == code && e.message == message
  {
    Error(code, message)
  }

  /** `impl From<CimplError> for Error`. */
  function ToError(e: CimplError): (r: Error)
    ensures 1 <= r.code <= 5
    ensures e.NullParameter? <==> r.code == 1
    ensures e.StringTooLong? <==> r.code == 2
    ensures e.InvalidHandle? <==> r.code == 3
    ensures e.WrongHandleType? <==> r.code == 4
    ensures e.Other? <==> r.code == 5
    ensures r.message == KindName(e) + ": " + Detail(e)
  {
    var code: int32 := match e
      case NullParameter(_) => 1
      case StringTooLong(_) => 2
      case InvalidHandle(_) => 3
      case WrongHandleType(_) => 4
      case Other(_) => 5;
    New(code, KindName(e) + ": " + Detail(e))
  }

  /** `impl Display for Error`: the message and nothing else. */
  function Display(e: Error): string {
    e.message
  }

  /** The rendered error starts with its kind, so the text alone tells the kinds apart. */
  lemma DisplayNamesKind(e: CimplError)
    ensures var shown := Display(ToError(e));
      |KindName(e)| + 2 <= |shown|
      && shown[..|KindName(e)| + 2] == KindName(e) + ": "
  {
    var shown := Display(ToError(e));
    assert shown == (KindName(e) + ": ") + Detail(e);
  }

  /** The code alone recovers the variant: two errors with equal codes are of the same kind. */
  lemma CodeDeterminesKind(a: CimplError, b: CimplError)
    requires ToError(a).code == ToError(b).code
    ensures KindName(a) == KindName(b)
  {
  }

  /** The id in a handle error's message reads back as the handle's address. */
  lemma HandleMessageCarriesId(e: CimplError)
    requires e.InvalidHandle? || e.WrongHandleType?
    ensures ParseDigits(Detail(e), 10) == e.id
  {
    DigitsRoundTrip(e.id, 10);
  }
}
