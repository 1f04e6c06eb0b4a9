/**
 * `staticenv!`: a static environment built at compile time. A table of
 * (name, value) pairs is serialized into one byte string of
 * `name=value\0` entries, a pointer table indexes the entries, and
 * `getenv` searches it.
 */
module StaticEnv {
  import opened Wrappers
  import opened Abi

  /** The byte `=`. */
  const EQ: u8 := 0x3d

  /** One `name => value` pair of the prototype table. */
  datatype Entry = Entry(name: seq<u8>, value: seq<u8>)

  /** The bytes one entry occupies in the string table. */
  function EntryBytes(e: Entry): seq<u8> {
    e.name + [EQ] + e.value + [0]
  }

  /** The string table the prototype should compile to. */
  function Serialize(p: seq<Entry>): seq<u8> {
    if |p| == 0 then [] else EntryBytes(p[0]) + Serialize(p[1..])
  }

  /** The sum of `|name| + |value| + 2` over the entries. */
  function TotalLen(p: seq<Entry>): nat {
    if |p| == 0 then 0 else |p[0].name| + |p[0].value| + 2 + TotalLen(p[1..])
  }

  /** No name and no value holds a NUL byte. */
  predicate NoNul(p: seq<Entry>) {
    forall j :: 0 <= j < |p| ==> 0 !in p[j].name && 0 !in p[j].value
  }

  lemma {:induction false} SerializeLength(p: seq<Entry>)
    ensures |Serialize(p)| == TotalLen(p)
  {
    if |p| > 0 {
      SerializeLength(p[1..]);
    }
  }

  lemma {:induction false} SerializeAppend(a: seq<Entry>, b: seq<Entry>)
    ensures Serialize(a + b) == Serialize(a) + Serialize(b)
    ensures TotalLen(a + b) == TotalLen(a) + TotalLen(b)
  {
    if |a| > 0 {
      assert (a + b)[1..] == a[1..] + b;
      SerializeAppend(a[1..], b);
    } else {
      assert a + b == b;
    }
  }

  /** Extending the prototype by one entry extends the table by its bytes. */
  lemma SerializeSnoc(p: seq<Entry>, i: nat)
    requires i < |p|
    ensures Serialize(p[..i + 1]) == Serialize(p[..i]) + EntryBytes(p[i])
    ensures TotalLen(p[..i + 1]) == TotalLen(p[..i]) + |p[i].name| + |p[i].value| + 2
    ensures TotalLen(p) >= TotalLen(p[..i]) + |p[i].name| + |p[i].value| + 2
  {
    assert p[..i + 1] == p[..i] + [p[i]];
    SerializeAppend(p[..i], [p[i]]);
    assert p == p[..i + 1] + p[i + 1..];
    SerializeAppend(p[..i + 1], p[i + 1..]);
  }

  /** `str_table_len`. */
  method StrTableLen(proto: seq<Entry>) returns (len: nat)
    ensures len == TotalLen(proto) == |Serialize(proto)|
  {
    var i := 0;
    len := 0;
    while i < |proto|
      invariant 0 <= i <= |proto|
      invariant len == TotalLen(proto[..i])
    {
      SerializeSnoc(proto, i);
      len := len + |proto[i].name| + |proto[i].value| + 2;
      i := i + 1;
    }
    assert proto[..i] == proto;
    SerializeLength(proto);
  }

  /**
   * One inner loop of `str_table`: copy `src` into `out` from `at`,
   * panicking with `msg` at a NUL byte and on a write past the end.
   */
  method CopyNoNul(out: array<u8>, at: nat, src: seq<u8>, msg: string) returns (r: Outcome<nat>)
    requires at <= out.Length
    requires forall j :: at <= j < out.Length ==> out[j] == 0
    modifies out
    ensures r.Ret? <==> 0 !in src && at + |src| <= out.Length
    ensures r.Ret? || r.Panic?
    ensures r.Ret? ==> r.value == at + |src|
    ensures r.Ret? ==> out[..r.value] == old(out[..at]) + src
    ensures r.Ret? ==> forall j :: r.value <= j < out.Length ==> out[j] == 0
  {
    var i := 0;
    while i < |src|
      invariant 0 <= i <= |src| && at + i <= out.Length
      invariant out[..at + i] == old(out[..at]) + src[..i]
      invariant 0 !in src[..i]
      invariant forall j :: at + i <= j < out.Length ==> out[j] == 0
    {
      if src[i] == 0 {
        return Panic(msg);
      }
      if at + i >= out.Length {
        return Panic("index out of bounds");
      }
      out[at + i] := src[i];
      assert src[..i + 1] == src[..i] + [src[i]];
      assert out[..at + i + 1] == out[..at + i] + [src[i]];
      i := i + 1;
    }
    assert src[..i] == src;
    r := Ret(at + i);
  }

  /**
   * One iteration of the outer loop of `str_table`: the name, `=`, the
   * value, and a skipped (still zero) terminator.
   */
  method WriteEntry(out: array<u8>, at: nat, e: Entry) returns (r: Outcome<nat>)
    requires at <= out.Length
    requires forall j :: at <= j < out.Length ==> out[j] == 0
    modifies out
    ensures r.Ret? <==> 0 !in e.name && 0 !in e.value && at + |EntryBytes(e)| <= out.Length
    ensures r.Ret? || r.Panic?
    ensures r.Ret? ==> r.value == at + |EntryBytes(e)|
    ensures r.Ret? ==> out[..r.value] == old(out[..at]) + EntryBytes(e)
    ensures r.Ret? ==> forall j :: r.value <= j < out.Length ==> out[j] == 0
  {
    var rk := CopyNoNul(out, at, e.name, "name must not contain null bytes");
    if rk.Panic? {
      return Panic(rk.message);
    }
    var outI := rk.value;
    if outI >= out.Length {
      return Panic("index out of bounds");
    }
    out[outI] := EQ;
    assert out[..outI + 1] == out[..outI] + [EQ];
    outI := outI + 1;
    var rv := CopyNoNul(out, outI, e.value, "value must not contain null bytes");
    if rv.Panic? {
      return Panic(rv.message);
    }
    outI := rv.value;
    if outI >= out.Length {
      // Skipping the NUL would leave `out_i == LEN + 1`, so a later write
      // or the final length check panics.
      return Panic("assertion failed: out_i == LEN");
    }
    assert out[..outI + 1] == out[..outI] + [out[outI]];
    r := Ret(outI + 1);
  }

  /**
   * `str_table::<LEN>`: copy every entry into a zeroed array of `LEN`
   * bytes. The terminating NUL is not written: the loop only skips over a
   * byte that is still zero. A NUL in a name or value, a write past the
   * end, or a final length other than `LEN` panics.
   */
  method StrTable(proto: seq<Entry>, LEN: nat) returns (r: Outcome<seq<u8>>)
    ensures r.Ret? <==> NoNul(proto) && LEN == TotalLen(proto)
    ensures r.Ret? ==> r.value == Serialize(proto)
    ensures r.Ret? || r.Panic?
  {
    var out := new u8[LEN](_ => 0);
    var pi := 0;
    var outI := 0;
    while pi < |proto|
      invariant 0 <= pi <= |proto|
      invariant NoNul(proto[..pi])
      invariant outI == TotalLen(proto[..pi]) <= LEN
      invariant out[..outI] == Serialize(proto[..pi])
      invariant forall j :: outI <= j < LEN ==> out[j] == 0
    {
      SerializeSnoc(proto, pi);
      var w := WriteEntry(out, outI, proto[pi]);
      if w.Panic? {
        assert !(NoNul(proto) && LEN == TotalLen(proto));
        return Panic(w.message);
      }
      outI := w.value;
      assert NoNul(proto[..pi + 1]) by {
        assert proto[..pi + 1] == proto[..pi] + [proto[pi]];
      }
      pi := pi + 1;
    }
    assert proto[..pi] == proto;
    if outI != LEN {
      return Panic("assertion failed: out_i == LEN");
    }
    assert out[..] == out[..outI];
    r := Ret(out[..]);
  }

  /** A pointer into the string table: null, or the address of byte `offset`. */
  datatype Ptr = Null | At(offset: nat)

  /** The index of the first NUL at or after `i`, or `|t|` if there is none. */
  function NextNul(t: seq<u8>, i: nat): (r: nat)
    requires i <= |t|
    decreases |t| - i
    ensures i <= r <= |t|
    ensures r < |t| ==> t[r] == 0
  {
    if i == |t| then |t| else if t[i] == 0 then i else NextNul(t, i + 1)
  }

  /** The search from `i` passes only non-NUL bytes before it stops. */
  lemma {:induction false} NextNulMisses(t: seq<u8>, i: nat, k: nat)
    requires i <= |t| && i <= k < NextNul(t, i)
    decreases k - i
    ensures t[k] != 0
  {
    if i < k {
      NextNulMisses(t, i + 1, k);
    }
  }

  /** A NUL-free stretch `t[i..j]` is skipped: the search from `i` ends where the one from `j` does. */
  lemma {:induction false} NextNulSkips(t: seq<u8>, i: nat, j: nat)
    requires i <= j <= |t| && 0 !in t[i..j]
    decreases j - i
    ensures NextNul(t, i) == NextNul(t, j)
  {
    if i < j {
      assert t[i] == t[i..j][0];
      assert t[i + 1..j] == t[i..j][1..];
      NextNulSkips(t, i + 1, j);
    }
  }

  /** The start offsets of the NUL-separated entries from offset `i` on. */
  function StartsFrom(t: seq<u8>, i: nat): seq<nat>
    requires i <= |t|
    decreases |t| - i
  {
    if i == |t| then [] else
      var n := NextNul(t, i);
      [i] + (if n < |t| then StartsFrom(t, n + 1) else [])
  }

  /** Every entry from offset `i` on has its NUL inside the table. */
  predicate Terminated(t: seq<u8>, i: nat)
    requires i <= |t|
    decreases |t| - i
  {
    i == |t| || (NextNul(t, i) < |t| && Terminated(t, NextNul(t, i) + 1))
  }

  /** The entries are all terminated exactly when the table is empty or ends with NUL. */
  lemma {:induction false} TerminatedIffEndsWithNul(t: seq<u8>, i: nat)
    requires i <= |t|
    decreases |t| - i
    ensures Terminated(t, i) <==> i == |t| || t[|t| - 1] == 0
  {
    if i < |t| {
      var n := NextNul(t, i);
      if n < |t| {
        TerminatedIffEndsWithNul(t, n + 1);
      } else {
        NextNulMisses(t, i, |t| - 1);
      }
    }
  }

  function Pointers(offsets: seq<nat>): (r: seq<Ptr>)
    ensures |r| == |offsets|
    ensures forall j :: 0 <= j < |r| ==> r[j] == At(offsets[j])
  {
    seq(|offsets|, j requires 0 <= j < |offsets| => At(offsets[j]))
  }

  /** The inner loop of `env_table`: step past the NUL of the entry at `i`. */
  method SkipEntry(t: seq<u8>, i: nat) returns (r: Outcome<nat>)
    requires i < |t|
    ensures r.Ret? <==> NextNul(t, i) < |t|
    ensures r.Ret? || r.Panic?
    ensures r.Ret? ==> r.value == NextNul(t, i) + 1
  {
    var j := i;
    while t[j] != 0
      invariant i <= j < |t|
      invariant NextNul(t, i) == NextNul(t, j)
      decreases |t| - j
    {
      if j + 1 >= |t| {
        return Panic("index out of bounds");
      }
      j := j + 1;
    }
    r := Ret(j + 1);
  }

  /**
   * `env_table::<LEN>`: a pointer to the start of each entry, then null.
   * Running off the end of the table while looking for a NUL, writing past
   * `LEN`, or a count other than `LEN - 1` panics.
   */
  method EnvTable(t: seq<u8>, LEN: nat) returns (r: Outcome<seq<Ptr>>)
    ensures r.Ret? <==> Terminated(t, 0) && LEN == |StartsFrom(t, 0)| + 1
    ensures r.Ret? ==> r.value == Pointers(StartsFrom(t, 0)) + [Null]
    ensures r.Ret? || r.Panic?
  {
    var out := new Ptr[LEN](_ => Null);
    var filled := FillEnvTable(out, t);
    if filled.Panic? {
      return Panic(filled.message);
    }
    var outI := filled.value;
    if outI + 1 != LEN {
      return Panic("assertion failed: out_i + 1 == LEN");
    }
    assert out[..] == Pointers(StartsFrom(t, 0)) + [Null];
    r := Ret(out[..]);
  }

  /** The loop of `env_table`: write one pointer per entry into the null-filled `out`. */
  method FillEnvTable(out: array<Ptr>, t: seq<u8>) returns (r: Outcome<nat>)
    requires forall j :: 0 <= j < out.Length ==> out[j] == Null
    modifies out
    ensures r.Ret? <==> Terminated(t, 0) && |StartsFrom(t, 0)| <= out.Length
    ensures r.Ret? || r.Panic?
    ensures r.Ret? ==> r.value == |StartsFrom(t, 0)|
    ensures r.Ret? ==> forall j :: 0 <= j < r.value ==> out[j] == At(StartsFrom(t, 0)[j])
    ensures r.Ret? ==> forall j :: r.value <= j < out.Length ==> out[j] == Null
  {
    var outI := 0;
    var i := 0;
    ghost var done: seq<nat> := [];
    while i < |t|
      invariant Filled(out, t, outI, i, done)
      decreases |t| - i
    {
      var next;
      next, done := FillStep(out, t, outI, i, done);
      if next.Panic? {
        return Panic(next.message);
      }
      outI, i := outI + 1, next.value;
    }
    r := Ret(outI);
  }

  /**
   * The state of the `env_table` loop at offset `i`: the entries before
   * `i` are `done`, their pointers fill `out[..outI]`, and the rest of
   * `out` is still null.
   */
  ghost predicate Filled(out: array<Ptr>, t: seq<u8>, outI: nat, i: nat, done: seq<nat>)
    reads out
  {
    && i <= |t| && outI == |done| <= out.Length
    && StartsFrom(t, 0) == done + StartsFrom(t, i)
    && (Terminated(t, 0) <==> Terminated(t, i))
    && (forall j :: 0 <= j < outI ==> out[j] == At(done[j]))
    && (forall j :: outI <= j < out.Length ==> out[j] == Null)
  }

  /** One round of the `env_table` loop: store a pointer to entry `i` and skip past its NUL. */
  method FillStep(out: array<Ptr>, t: seq<u8>, outI: nat, i: nat, ghost done: seq<nat>)
    returns (next: Outcome<nat>, ghost done': seq<nat>)
    requires i < |t| && Filled(out, t, outI, i, done)
    modifies out
    ensures next.Ret? || next.Panic?
    ensures next.Panic? ==> !(Terminated(t, 0) && |StartsFrom(t, 0)| <= out.Length)
    ensures next.Ret? ==> i < next.value && done' == done + [i] && Filled(out, t, outI + 1, next.value, done')
  {
    done' := done;
    RemainingEntry(t, i);
    if outI >= out.Length {
      return Panic("index out of bounds"), done';
    }
    next := SkipEntry(t, i);
    if next.Panic? {
      return;
    }
    DoneStep(t, done, i, next.value);
    out[outI] := At(i);
    done' := done + [i];
  }

  /** An entry starts at `i`, and the table is unterminated there if its NUL is missing. */
  lemma RemainingEntry(t: seq<u8>, i: nat)
    requires i < |t|
    ensures |StartsFrom(t, i)| > 0
    ensures NextNul(t, i) == |t| ==> !Terminated(t, i)
  {
  }

  /** The loop of `env_table` records entry `i` and moves to `next`. */
  lemma DoneStep(t: seq<u8>, done: seq<nat>, i: nat, next: nat)
    requires i < |t| && NextNul(t, i) < |t| && next == NextNul(t, i) + 1
    ensures done + StartsFrom(t, i) == (done + [i]) + StartsFrom(t, next)
    ensures Terminated(t, i) <==> Terminated(t, next)
  {
    StartsFromStep(t, i, next);
  }

  lemma StartsFromStep(t: seq<u8>, i: nat, next: nat)
    requires i < |t| && NextNul(t, i) < |t| && next == NextNul(t, i) + 1
    ensures StartsFrom(t, i) == [i] + StartsFrom(t, next)
    ensures Terminated(t, i) <==> Terminated(t, next)
  {
    StartsFromUnfold(t, i);
    TerminatedUnfold(t, i);
    SameStart(t, next, NextNul(t, i) + 1);
  }

  lemma SameStart(t: seq<u8>, a: nat, b: nat)
    requires a == b <= |t|
    ensures StartsFrom(t, a) == StartsFrom(t, b)
    ensures Terminated(t, a) == Terminated(t, b)
  {
  }

  lemma StartsFromUnfold(t: seq<u8>, i: nat)
    requires i < |t| && NextNul(t, i) < |t|
    ensures StartsFrom(t, i) == [i] + StartsFrom(t, NextNul(t, i) + 1)
  {
  }

  lemma TerminatedUnfold(t: seq<u8>, i: nat)
    requires i < |t| && NextNul(t, i) < |t|
    ensures Terminated(t, i) <==> Terminated(t, NextNul(t, i) + 1)
  {
  }

  /** The byte string at `o`, up to (not including) its NUL. */
  function CStringAt(mem: seq<u8>, o: nat): seq<u8>
    requires o <= |mem|
  {
    mem[o..NextNul(mem, o)]
  }

  /** `strncmp(name, entry, |name|) == 0 && entry[|name|] == '='`. */
  predicate EntryMatches(mem: seq<u8>, off: nat, name: seq<u8>) {
    off + |name| < |mem| && mem[off..off + |name|] == name && mem[off + |name|] == EQ
  }

  /** What `getenv_impl` finds, scanning the pointer table from index `j`. */
  function LookupFrom(mem: seq<u8>, env: seq<Ptr>, name: seq<u8>, j: nat): Option<nat>
    requires j <= |env| && Null in env[j..]
    decreases |env| - j
  {
    if env[j].Null? then None
    else if EntryMatches(mem, env[j].offset, name) then Some(env[j].offset + |name| + 1)
    else
      assert env[j..] == [env[j]] + env[j + 1..];
      LookupFrom(mem, env, name, j + 1)
  }

  /** Every entry before the null terminator is a NUL-terminated string in `mem`. */
  predicate ValidEnv(mem: seq<u8>, env: seq<Ptr>) {
    && Null in env
    && forall j :: 0 <= j < |env| && env[j].At? ==>
         env[j].offset <= |mem| && NextNul(mem, env[j].offset) < |mem|
  }

  /**
   * `getenv_impl`: a name holding `=` gives null; otherwise the value of
   * the first entry that starts with `name=`, or null. `name` is the C
   * string's bytes before its NUL.
   */
  method GetenvImpl(mem: seq<u8>, env: seq<Ptr>, name: seq<u8>) returns (r: Ptr)
    requires 0 !in name && ValidEnv(mem, env)
    ensures EQ in name ==> r == Null
    ensures EQ !in name ==> r == match LookupFrom(mem, env, name, 0)
                                  case None => Null
                                  case Some(o) => At(o)
  {
    if EQ in name {                      // `memchr(name, '=', strlen(name))`
      return Null;
    }
    var j := 0;
    while env[j] != Null
      invariant j < |env| && Null in env[j..]
      invariant LookupFrom(mem, env, name, 0) == LookupFrom(mem, env, name, j)
      decreases |env| - j
    {
      var off := env[j].offset;
      var same := off + |name| <= |mem| && mem[off..off + |name|] == name;   // `strncmp`
      if same {
        NextNulSkips(mem, off, off + |name|);
        if mem[off + |name|] == EQ {
          return At(off + |name| + 1);
        }
      }
      assert env[j..] == [env[j]] + env[j + 1..];
      j := j + 1;
    }
    r := Null;
  }

  /** Where each entry of `Serialize(p)` starts. */
  function Offsets(p: seq<Entry>): (r: seq<nat>)
    ensures |r| == |p|
  {
    seq(|p|, j requires 0 <= j < |p| => TotalLen(p[..j]))
  }

  /** The first value stored under `name`, if any. */
  function FirstValue(p: seq<Entry>, name: seq<u8>): Option<seq<u8>> {
    if |p| == 0 then None
    else if p[0].name == name then Some(p[0].value)
    else FirstValue(p[1..], name)
  }

  /** No name holds `=`. */
  predicate NamesWithoutEq(p: seq<Entry>) {
    forall j :: 0 <= j < |p| ==> EQ !in p[j].name
  }

  /** Inside a table, a NUL-free entry ends at its own terminator. */
  lemma EntryNul(a: seq<u8>, e: Entry, b: seq<u8>)
    requires 0 !in e.name && 0 !in e.value
    ensures NextNul(a + EntryBytes(e) + b, |a|) == |a| + |EntryBytes(e)| - 1
  {
    var t := a + EntryBytes(e) + b;
    var last := |a| + |EntryBytes(e)| - 1;
    assert t[|a|..last] == e.name + [EQ] + e.value;
    NextNulSkips(t, |a|, last);
  }

  /**
   * The value of an entry is the C string just after its `=`, and a
   * `=`-free name matches an entry whose name has no `=` exactly when the
   * two names are equal.
   */
  lemma EntryMatchIff(a: seq<u8>, e: Entry, b: seq<u8>, name: seq<u8>)
    requires 0 !in e.name && 0 !in e.value && EQ !in e.name && EQ !in name
    ensures EntryMatches(a + EntryBytes(e) + b, |a|, name) <==> e.name == name
    ensures |a| + |e.name| + 1 <= |a + EntryBytes(e) + b|
    ensures CStringAt(a + EntryBytes(e) + b, |a| + |e.name| + 1) == e.value
  {
    var t := a + EntryBytes(e) + b;
    var k := e.name;
    assert t[|a|..|a| + |k|] == k;
    assert t[|a| + |k|] == EQ;
    if |name| < |k| {
      assert t[|a| + |name|] == k[|name|];
    } else if |name| > |k| && |a| + |name| < |t| {
      PrefixHoldsEq(t[|a|..|a| + |name|], k, name);
    }
    ValueAfterEq(a, e, b);
  }

  /** A name longer than `k` that starts like `k` holds the `=` that follows `k`. */
  lemma PrefixHoldsEq(window: seq<u8>, k: seq<u8>, name: seq<u8>)
    requires |k| < |window| && window[|k|] == EQ
    ensures window == name ==> EQ in name
  {
  }

  lemma ValueAfterEq(a: seq<u8>, e: Entry, b: seq<u8>)
    requires 0 !in e.value
    ensures |a| + |e.name| + 1 <= |a + EntryBytes(e) + b|
    ensures CStringAt(a + EntryBytes(e) + b, |a| + |e.name| + 1) == e.value
  {
    var t := a + EntryBytes(e) + b;
    var o := |a| + |e.name| + 1;
    assert t[o..o + |e.value|] == e.value;
    assert t[o + |e.value|] == 0;
    NextNulSkips(t, o, o + |e.value|);
  }

  /**
   * `Serialize(p)` placed after any prefix has one entry start per entry
   * of `p`, at the running offsets, and every entry is terminated.
   */
  lemma {:induction false} StartsOfSerialize(t: seq<u8>, pre: seq<u8>, p: seq<Entry>)
    requires NoNul(p) && t == pre + Serialize(p)
    decreases |p|
    ensures |StartsFrom(t, |pre|)| == |p|
    ensures forall j :: 0 <= j < |p| ==> StartsFrom(t, |pre|)[j] == |pre| + TotalLen(p[..j])
    ensures Terminated(t, |pre|)
  {
    if |p| == 0 {
      assert t == pre;
    } else {
      var pre' := FirstEntryOf(t, pre, p);
      StartsFromStep(t, |pre|, |pre'|);
      StartsOfSerialize(t, pre', p[1..]);
      OffsetsShift(p, StartsFrom(t, |pre|), StartsFrom(t, |pre'|), |pre|);
    }
  }

  /** Splitting the first entry off a compiled table. */
  lemma FirstEntryOf(t: seq<u8>, pre: seq<u8>, p: seq<Entry>) returns (pre': seq<u8>)
    requires NoNul(p) && |p| > 0 && t == pre + Serialize(p)
    ensures NoNul(p[1..]) && t == pre' + Serialize(p[1..])
    ensures |pre| < |t| && NextNul(t, |pre|) < |t|
    ensures NextNul(t, |pre|) + 1 == |pre'| == |pre| + |p[0].name| + |p[0].value| + 2
  {
    pre' := pre + EntryBytes(p[0]);
    assert t == pre' + Serialize(p[1..]);
    EntryNul(pre, p[0], Serialize(p[1..]));
    assert NoNul(p[1..]) by {
      forall j | 0 <= j < |p[1..]|
        ensures 0 !in p[1..][j].name && 0 !in p[1..][j].value
      {
        assert p[1..][j] == p[j + 1];
      }
    }
  }

  /** Entry offsets of `p` are its first offset followed by the shifted offsets of `p[1..]`. */
  lemma OffsetsShift(p: seq<Entry>, s: seq<nat>, rest: seq<nat>, base: nat)
    requires |p| > 0 && s == [base] + rest && |rest| == |p| - 1
    requires forall j :: 0 <= j < |rest| ==>
      rest[j] == base + |p[0].name| + |p[0].value| + 2 + TotalLen(p[1..][..j])
    ensures forall j :: 0 <= j < |p| ==> s[j] == base + TotalLen(p[..j])
  {
    forall j | 0 <= j < |p|
      ensures s[j] == base + TotalLen(p[..j])
    {
      if j == 0 {
        assert p[..0] == [];
      } else {
        assert p[..j][1..] == p[1..][..j - 1];
        assert s[j] == rest[j - 1];
      }
    }
  }

  /**
   * The pointer table built from a compiled prototype has exactly one
   * pointer per entry, so `env_table::<proto.len() + 1>` accepts it, and
   * its pointers are the entry offsets.
   */
  lemma EnvTableOfStrTable(proto: seq<Entry>)
    requires NoNul(proto)
    ensures Terminated(Serialize(proto), 0)
    ensures StartsFrom(Serialize(proto), 0) == Offsets(proto)
    ensures |StartsFrom(Serialize(proto), 0)| + 1 == |proto| + 1
  {
    assert [] + Serialize(proto) == Serialize(proto);
    StartsOfSerialize(Serialize(proto), [], proto);
    assert StartsFrom(Serialize(proto), 0) == Offsets(proto);
  }

  /** Entry `j` of a compiled table sits between the earlier and the later entries. */
  lemma SerializeAround(p: seq<Entry>, j: nat)
    requires j < |p|
    ensures Serialize(p) == Serialize(p[..j]) + EntryBytes(p[j]) + Serialize(p[j + 1..])
    ensures |Serialize(p[..j])| == TotalLen(p[..j])
  {
    SerializeSnoc(p, j);
    assert p == p[..j + 1] + p[j + 1..];
    SerializeAppend(p[..j + 1], p[j + 1..]);
    SerializeLength(p[..j]);
  }

  /** The pointer table of a compiled prototype satisfies what `getenv_impl` relies on. */
  lemma CompiledEnvValid(proto: seq<Entry>)
    requires NoNul(proto)
    ensures ValidEnv(Serialize(proto), Pointers(Offsets(proto)) + [Null])
  {
    var mem := Serialize(proto);
    var env := Pointers(Offsets(proto)) + [Null];
    assert env[|env| - 1] == Null;
    forall j | 0 <= j < |env| && env[j].At?
      ensures env[j].offset <= |mem| && NextNul(mem, env[j].offset) < |mem|
    {
      SerializeAround(proto, j);
      EntryNul(Serialize(proto[..j]), proto[j], Serialize(proto[j + 1..]));
    }
  }

  /** The search from pointer `j` on finds the first value stored under `name` in entries `j..`. */
  lemma {:induction false} LookupSerialized(proto: seq<Entry>, name: seq<u8>, j: nat)
    requires NoNul(proto) && NamesWithoutEq(proto) && EQ !in name && j <= |proto|
    requires Null in (Pointers(Offsets(proto)) + [Null])[j..]
    decreases |proto| - j
    ensures var mem := Serialize(proto);
            var found := LookupFrom(mem, Pointers(Offsets(proto)) + [Null], name, j);
            && (found.None? <==> FirstValue(proto[j..], name).None?)
            && (found.Some? ==> found.value <= |mem| && CStringAt(mem, found.value) == FirstValue(proto[j..], name).value)
  {
    var mem, env := Serialize(proto), Pointers(Offsets(proto)) + [Null];
    if j == |proto| {
      LookupEnd(mem, env, name, j);
    } else {
      var a, b := EntryInTable(proto, j);
      LookupStep(mem, env, name, j, a, proto[j], b);
      FirstValueStep(proto, name, j);
      if proto[j].name != name {
        LookupSerialized(proto, name, j + 1);
      } else {
        MatchAgrees(mem, env, name, j, a, proto[j], b, FirstValue(proto[j..], name));
      }
    }
  }

  lemma LookupEnd(mem: seq<u8>, env: seq<Ptr>, name: seq<u8>, j: nat)
    requires j < |env| && env[j] == Null
    ensures Null in env[j..] && LookupFrom(mem, env, name, j) == None
  {
    assert env[j..][0] == Null;
  }

  /** When entry `e` at pointer `j` has the name, the search ends there with `e`'s value. */
  lemma MatchAgrees(mem: seq<u8>, env: seq<Ptr>, name: seq<u8>, j: nat, a: seq<u8>, e: Entry, b: seq<u8>,
                    v: Option<seq<u8>>)
    requires mem == a + EntryBytes(e) + b
    requires j < |env| && env[j] == At(|a|) && Null in env[j + 1..]
    requires 0 !in e.name && 0 !in e.value && EQ !in e.name && e.name == name && v == Some(e.value)
    ensures Null in env[j..]
    ensures var found := LookupFrom(mem, env, name, j);
            && (found.None? <==> v.None?)
            && (found.Some? ==> found.value <= |mem| && CStringAt(mem, found.value) == v.value)
  {
    LookupStep(mem, env, name, j, a, e, b);
  }

  /** Entry `j` of a compiled table, the bytes `a` before it and `b` after it, and its pointer. */
  lemma EntryInTable(proto: seq<Entry>, j: nat) returns (a: seq<u8>, b: seq<u8>)
    requires NoNul(proto) && NamesWithoutEq(proto) && j < |proto|
    ensures Serialize(proto) == a + EntryBytes(proto[j]) + b
    ensures var env := Pointers(Offsets(proto)) + [Null];
            j < |env| && env[j] == At(|a|) && Null in env[j + 1..]
    ensures 0 !in proto[j].name && 0 !in proto[j].value && EQ !in proto[j].name
  {
    a, b := Serialize(proto[..j]), Serialize(proto[j + 1..]);
    PointerAt(Offsets(proto), j);
    SerializeAround(proto, j);
  }

  /**
   * One step of the search, at a pointer to entry `e` of a table: it
   * matches exactly when `e` has the name, and then yields `e`'s value.
   */
  lemma LookupStep(mem: seq<u8>, env: seq<Ptr>, name: seq<u8>, j: nat, a: seq<u8>, e: Entry, b: seq<u8>)
    requires mem == a + EntryBytes(e) + b
    requires j < |env| && env[j] == At(|a|) && Null in env[j + 1..]
    requires 0 !in e.name && 0 !in e.value && EQ !in e.name && EQ !in name
    ensures Null in env[j..]
    ensures LookupFrom(mem, env, name, j)
            == if e.name == name then Some(|a| + |name| + 1) else LookupFrom(mem, env, name, j + 1)
    ensures e.name == name ==> |a| + |name| + 1 <= |mem| && CStringAt(mem, |a| + |name| + 1) == e.value
  {
    EntryMatchIff(a, e, b, name);
    LookupFromAt(mem, env, name, j);
  }

  /** One step of `LookupFrom` at a non-null pointer. */
  lemma LookupFromAt(mem: seq<u8>, env: seq<Ptr>, name: seq<u8>, j: nat)
    requires j < |env| && env[j].At? && Null in env[j + 1..]
    ensures Null in env[j..]
    ensures LookupFrom(mem, env, name, j)
            == if EntryMatches(mem, env[j].offset, name) then Some(env[j].offset + |name| + 1)
               else LookupFrom(mem, env, name, j + 1)
  {
    assert env[j..] == [env[j]] + env[j + 1..];
  }

  /** Pointer `j` of a table of offsets points at offset `j`, and a null follows. */
  lemma PointerAt(offsets: seq<nat>, j: nat)
    requires j < |offsets|
    ensures var env := Pointers(offsets) + [Null];
            && env[j] == At(offsets[j]) && Null in env[j..] && Null in env[j + 1..]
  {
    var env := Pointers(offsets) + [Null];
    assert env[j + 1..][|env| - 1 - (j + 1)] == Null;
    assert env[j..][|env| - 1 - j] == Null;
  }

  lemma FirstValueStep(p: seq<Entry>, name: seq<u8>, j: nat)
    requires j < |p|
    ensures FirstValue(p[j..], name)
            == (if p[j].name == name then Some(p[j].value) else FirstValue(p[j + 1..], name))
  {
    assert p[j..][1..] == p[j + 1..];
  }

  /**
   * Round trip: on the table compiled from a prototype whose names hold
   * no `=`, looking up `name` gives the value of the first entry named
   * `name`, and null when there is none.
   */
  lemma GetenvRoundTrip(proto: seq<Entry>, name: seq<u8>)
    requires NoNul(proto) && NamesWithoutEq(proto) && EQ !in name
    ensures var mem := Serialize(proto);
            var env := Pointers(StartsFrom(mem, 0)) + [Null];
            var found := LookupFrom(mem, env, name, 0);
            && (found.None? <==> FirstValue(proto, name).None?)
            && (found.Some? ==> found.value <= |mem| && CStringAt(mem, found.value) == FirstValue(proto, name).value)
  {
    EnvTableOfStrTable(proto);
    var env := Pointers(Offsets(proto)) + [Null];
    assert env[0..][|env| - 1] == Null;
    assert proto[0..] == proto;
    LookupSerialized(proto, name, 0);
  }
}
