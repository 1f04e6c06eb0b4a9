/** `solid::fs::ToSolidPath`: turning paths into SOLID filesystem paths. */
module Fs {
  import opened Wrappers
  import opened Abi

  const BACKSLASH: u8 := 0x5c

  /** The thread-safety wrapper prefix `\TS`. */
  const SAFE_PREFIX: seq<u8> := [0x5c, 0x54, 0x53]

  /** A C string: its bytes before the terminating NUL. */
  datatype CStr = CStr(bytes: seq<u8>)
  {
    ghost predicate Valid() {
      0 !in bytes
    }

    /** The bytes including the NUL (`as_bytes_with_nul`). */
    function WithNul(): seq<u8> {
      bytes + [0]
    }
  }

  /** `CString::from_vec_with_nul`: accepted iff the only NUL is the last byte. */
  function FromVecWithNul(v: seq<u8>): (r: Option<CStr>)
    ensures r.Some? <==> |v| > 0 && v[|v| - 1] == 0 && 0 !in v[..|v| - 1]
    ensures r.Some? ==> r.value.Valid() && r.value.WithNul() == v
  {
    if |v| > 0 && v[|v| - 1] == 0 && 0 !in v[..|v| - 1] then Some(CStr(v[..|v| - 1])) else None
  }

  /** `FromVecWithNul` accepts exactly the bytes of a valid C string. */
  lemma FromVecWithNulRoundTrip(c: CStr)
    requires c.Valid()
    ensures FromVecWithNul(c.WithNul()) == Some(c)
  {
    assert c.WithNul()[..|c.bytes|] == c.bytes;
  }

  /**
   * `<&[u8]>::to_solid_path`: a path must start with `\`; it is wrapped as
   * `\TS` + path + NUL and refused if it holds a NUL of its own.
   */
  function BytesToSolidPath(p: seq<u8>): (r: Option<CStr>)
    ensures |p| == 0 || p[0] != BACKSLASH ==> r == None
    ensures |p| > 0 && p[0] == BACKSLASH ==> (r.Some? <==> 0 !in p)
    ensures r.Some? ==> r.value.Valid() && r.value.bytes == SAFE_PREFIX + p
    ensures r.Some? ==> r.value.bytes[..4] == SAFE_PREFIX + [BACKSLASH]
  {
    if |p| == 0 || p[0] != BACKSLASH then None       // relative paths are not supported
    else
      var wrapped := SAFE_PREFIX + p + [0];
      assert wrapped[..|wrapped| - 1] == SAFE_PREFIX + p;
      FromVecWithNul(wrapped)
  }

  /** Different accepted paths give different wrapped paths. */
  lemma BytesToSolidPathInjective(p: seq<u8>, q: seq<u8>)
    requires BytesToSolidPath(p).Some? && BytesToSolidPath(p) == BytesToSolidPath(q)
    ensures p == q
  {
    assert p == BytesToSolidPath(p).value.bytes[3..];
    assert q == BytesToSolidPath(q).value.bytes[3..];
  }

  /** `<&CStr>::to_solid_path`: a C string has no NUL, so only the leading `\` matters. */
  function CStrToSolidPath(c: CStr): (r: Option<CStr>)
    requires c.Valid()
    ensures r.Some? <==> |c.bytes| > 0 && c.bytes[0] == BACKSLASH
    ensures r.Some? ==> r.value.bytes == SAFE_PREFIX + c.bytes
  {
    BytesToSolidPath(c.bytes)
  }

  /** A Rust `&str`, as its UTF-8 bytes (`as_bytes`). */
  datatype Str = Str(utf8: seq<u8>)

  /** A `&Path`, as the bytes of its `OsStr` (`as_bytes`). */
  datatype Path = Path(osBytes: seq<u8>)

  /** `<&str>::to_solid_path`. */
  function StrToSolidPath(s: Str): (r: Option<CStr>)
    ensures r.Some? <==> |s.utf8| > 0 && s.utf8[0] == BACKSLASH && 0 !in s.utf8
    ensures r.Some? ==> r.value.bytes == SAFE_PREFIX + s.utf8
  {
    BytesToSolidPath(s.utf8)
  }

  /** `<&Path>::to_solid_path`. */
  function PathToSolidPath(p: Path): (r: Option<CStr>)
    ensures r.Some? <==> |p.osBytes| > 0 && p.osBytes[0] == BACKSLASH && 0 !in p.osBytes
    ensures r.Some? ==> r.value.bytes == SAFE_PREFIX + p.osBytes
  {
    BytesToSolidPath(p.osBytes)
  }

  /** A path used unmodified, without the thread-safety wrapper. */
  datatype RawPath<T> = RawPath(inner: T)

  /** `RawPath::new`. */
  function NewRawPath<T>(raw: T): (r: RawPath<T>)
    ensures IntoInner(r) == raw
  {
    RawPath(raw)
  }

  /** `RawPath::into_inner`. */
  function IntoInner<T>(r: RawPath<T>): T {
    r.inner
  }

  /** `<RawPath<T>>::to_solid_path`: the wrapped C string, unchanged and never refused. */
  function RawPathToSolidPath(r: RawPath<CStr>): (s: Option<CStr>)
    ensures s == Some(IntoInner(r))
  {
    Some(r.inner)
  }
}
