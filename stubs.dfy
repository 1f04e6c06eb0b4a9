/** The `getenv` and `environ` stubs of the Rocket server application. */
module Stubs {
  import opened Wrappers
  import opened Abi

  /** The bytes of an ASCII string literal. */
  function Ascii(s: string): (r: seq<u8>)
    requires forall i :: 0 <= i < |s| ==> s[i] < 128 as char
    ensures |r| == |s| && forall i :: 0 <= i < |s| ==> r[i] == s[i] as int
  {
    seq(|s|, i requires 0 <= i < |s| => s[i] as int)
  }

  /** `environ`: an empty environment (a null pointer). */
  const ENVIRON: usize := 0

  /** The two names the stub knows. */
  const TMPDIR: seq<u8> := Ascii("TMPDIR")
  const RUST_MIN_STACK: seq<u8> := Ascii("RUST_MIN_STACK")

  /** Their values, each with its terminating NUL. */
  const TMPDIR_VALUE: seq<u8> := Ascii("\\OSCOM_FS\\tmp") + [0]
  const RUST_MIN_STACK_VALUE: seq<u8> := Ascii("125536") + [0]

  /** `v` is a C string: it ends with its only NUL. */
  predicate IsCString(v: seq<u8>) {
    |v| > 0 && v[|v| - 1] == 0 && 0 !in v[..|v| - 1]
  }

  /** Both values are C strings, and the two names differ. */
  lemma StubValuesWellFormed()
    ensures IsCString(TMPDIR_VALUE) && IsCString(RUST_MIN_STACK_VALUE)
    ensures TMPDIR != RUST_MIN_STACK
  {
    assert TMPDIR_VALUE[..13] == Ascii("\\OSCOM_FS\\tmp");
    assert RUST_MIN_STACK_VALUE[..6] == Ascii("125536");
  }

  /**
   * `getenv`: `TMPDIR` and `RUST_MIN_STACK` have fixed NUL-terminated
   * values; every other name gives null (`None`). `name` is the bytes of
   * the C string before its NUL.
   */
  function Getenv(name: seq<u8>): (r: Option<seq<u8>>)
    ensures r.Some? <==> name == TMPDIR || name == RUST_MIN_STACK
    ensures name == TMPDIR ==> r == Some(TMPDIR_VALUE)
    ensures name == RUST_MIN_STACK ==> r == Some(RUST_MIN_STACK_VALUE)
    ensures r.Some? ==> IsCString(r.value)
  {
    StubValuesWellFormed();
    if name == TMPDIR then Some(TMPDIR_VALUE)
    else if name == RUST_MIN_STACK then Some(RUST_MIN_STACK_VALUE)
    else None
  }
}
