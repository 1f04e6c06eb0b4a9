/** `solid::error`: an unprocessed SOLID error code. */
module SolidError {
  import opened Wrappers
  import opened Abi

  /** A non-zero error code; `from_raw` only ever makes negative ones. */
  datatype Error = Error(code: i32)
  {
    /** `Error::get`. */
    function Get(): i32 {
      code
    }
  }

  /** `Error::from_raw`: zero and positive codes are not errors. */
  function FromRaw(code: i32): (r: Option<Error>)
    ensures r.Some? <==> code < 0
    ensures r.Some? ==> r.value.Get() == code
  {
    if code != 0 then                      // `NonZeroI32::new`
      if code < 0 then Some(Error(code)) else None
    else None
  }

  /** `Error::err_if_negative`. */
  function ErrIfNegative(x: i32): (r: Result<i32, Error>)
    ensures r.Err? <==> x < 0
    ensures r.Err? ==> r.error.Get() == x
    ensures r.Ok? ==> r.value == x
  {
    match FromRaw(x)
    case Some(e) => Err(e)
    case None => Ok(x)
  }

  /**
   * One constant of `define_error_codes!`: `from_raw` of the SOLID_ERR_
   * value, and `unreachable!()` (a compile-time panic) if it is not an error.
   */
  function DefineErrorCode(raw: i32): (r: Outcome<Error>)
    ensures r.Ret? <==> raw < 0
    ensures r.Ret? ==> r.value.Get() == raw && FromRaw(raw) == Some(r.value)
  {
    match FromRaw(raw)
    case Some(x) => Ret(x)
    case None => Panic("internal error: entered unreachable code")
  }

  /** Every named constant PAR..NOTREADY is defined, and `get` gives its raw value back. */
  lemma KnownCodesDefined()
    ensures forall k :: 0 <= k < |ErrorCodes()| ==>
      DefineErrorCode(ErrorCodes()[k]).Ret? && DefineErrorCode(ErrorCodes()[k]).value.Get() == ErrorCodes()[k]
  {
    ErrorCodesDistinctNegative();
  }

  /** `get` inverts `from_raw`, and `from_raw` inverts `get` on every error it can make. */
  lemma FromRawGetRoundTrip(code: i32, e: Error)
    ensures FromRaw(code).Some? ==> FromRaw(code).value.Get() == code
    ensures e.code < 0 ==> FromRaw(e.Get()) == Some(e)
  {
  }

  const PAR: Error := DefineErrorCode(SOLID_ERR_PAR).value
  const MACV: Error := DefineErrorCode(SOLID_ERR_MACV).value
  const NOMEM: Error := DefineErrorCode(SOLID_ERR_NOMEM).value
  const NORES: Error := DefineErrorCode(SOLID_ERR_NORES).value
  const NOTFOUND: Error := DefineErrorCode(SOLID_ERR_NOTFOUND).value
  const NOTSUPPORTED: Error := DefineErrorCode(SOLID_ERR_NOTSUPPORTED).value
  const EBADF: Error := DefineErrorCode(SOLID_ERR_EBADF).value
  const INVALIDCONTENT: Error := DefineErrorCode(SOLID_ERR_INVALIDCONTENT).value
  const NOTUSED: Error := DefineErrorCode(SOLID_ERR_NOTUSED).value
  const ALREADYUSED: Error := DefineErrorCode(SOLID_ERR_ALREADYUSED).value
  const OUTOFBOUND: Error := DefineErrorCode(SOLID_ERR_OUTOFBOUND).value
  const BADSEQUENCE: Error := DefineErrorCode(SOLID_ERR_BADSEQUENCE).value
  const UNKNOWNDEVICE: Error := DefineErrorCode(SOLID_ERR_UNKNOWNDEVICE).value
  const BUSY: Error := DefineErrorCode(SOLID_ERR_BUSY).value
  const TIMEOUT: Error := DefineErrorCode(SOLID_ERR_TIMEOUT).value
  const INVALIDACCESS: Error := DefineErrorCode(SOLID_ERR_INVALIDACCESS).value
  const NOTREADY: Error := DefineErrorCode(SOLID_ERR_NOTREADY).value
}
