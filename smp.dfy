/**
 * Multiprocessing: processor sets and running closures on other processors
 * through SOLID_SMP_ForEachCpu and SOLID_SMP_RequestExec.
 */
module Smp {
  import opened Wrappers
  import opened Abi
  import opened Arith

  function Pow2(n: nat): (r: nat)
    ensures r >= 1
  {
    if n == 0 then 1 else 2 * Pow2(n - 1)
  }

  /** Whether bit `p` of `x` is set. */
  predicate Bit(x: nat, p: nat) {
    if p == 0 then x % 2 == 1 else Bit(x / 2, p - 1)
  }

  lemma {:induction false} Pow2Monotone(a: nat, b: nat)
    requires a <= b
    ensures Pow2(a) <= Pow2(b)
  {
    if a < b { Pow2Monotone(a, b - 1); }
  }

  lemma {:induction false} BitOfPow2(n: nat, p: nat)
    ensures Bit(Pow2(n), p) <==> p == n
  {
    if p > 0 && n > 0 {
      assert Pow2(n) / 2 == Pow2(n - 1);
      BitOfPow2(n - 1, p - 1);
    } else if p > 0 {
      assert Pow2(n) / 2 == 0;
      BitOfZero(p - 1);
    }
  }

  lemma {:induction false} BitOfZero(p: nat)
    ensures !Bit(0, p)
  {
    if p > 0 { BitOfZero(p - 1); }
  }

  /** Taking `x` modulo 2^c keeps exactly the bits below `c`. */
  lemma {:induction false} BitOfMod(x: nat, c: nat, p: nat)
    ensures Bit(x % Pow2(c), p) <==> Bit(x, p) && p < c
  {
    if c == 0 {
      BitOfZero(p);
    } else {
      var P := Pow2(c - 1);
      var a, b := x / 2, x % 2;
      var m := 2 * (a % P) + b;
      assert x == 2 * P * (a / P) + m;
      assert 0 <= m < 2 * P;
      DivModUnique(x, 2 * P, a / P, m);
      assert x % Pow2(c) == m;
      DivModUnique(m, 2, a % P, b);
      if p > 0 {
        BitOfMod(a, c - 1, p - 1);
      }
    }
  }

  lemma {:induction false} Pow2Add(a: nat, b: nat)
    ensures Pow2(a + b) == Pow2(a) * Pow2(b)
  {
    if a > 0 {
      Pow2Add(a - 1, b);
      assert Pow2(a + b) == 2 * Pow2(a - 1 + b);
    }
  }

  lemma Pow2Constants()
    ensures Pow2(31) == 0x8000_0000 && Pow2(32) == 0x1_0000_0000
  {
    Pow2Of16();
    assert Pow2(16) == 2 * Pow2(15);
    Pow2Add(16, 15);
    assert Pow2(32) == 2 * Pow2(31);
  }

  lemma Pow2Of16()
    ensures Pow2(16) == 0x1_0000
  {
    assert Pow2(4) == 16;
    Pow2Add(4, 4);
    Pow2Add(8, 8);
  }

  /** The bits of 2^n - 1 are exactly those below n. */
  lemma {:induction false} BitOfOnes(n: nat, p: nat)
    ensures Bit(Pow2(n) - 1, p) <==> p < n
  {
    if n == 0 {
      BitOfZero(p);
    } else if p > 0 {
      assert (Pow2(n) - 1) / 2 == Pow2(n - 1) - 1;
      BitOfOnes(n - 1, p - 1);
    }
  }

  /** A set of processors as a bit mask. */
  datatype ProcessorSet = ProcessorSet(bits: u32)

  /** `ProcessorSet::from_bits_truncating`: `bits & ((1 << CORE_MAX) - 1)`, written as `% 2^CORE_MAX`. */
  function FromBitsTruncating(cfg: Config, bits: u32): (r: ProcessorSet)
    requires cfg.Valid()
    ensures forall p: nat :: Bit(r.bits, p) <==> Bit(bits, p) && p < cfg.coreMax
    ensures cfg.coreMax == 32 ==> r.bits == bits
  {
    if cfg.coreMax < 32 then
      LemmaTruncate(bits, cfg.coreMax);
      ProcessorSet(bits % Pow2(cfg.coreMax))
    else
      LemmaKeep(bits);
      ProcessorSet(bits)
  }

  lemma LemmaTruncate(bits: u32, c: nat)
    ensures bits % Pow2(c) <= bits
    ensures forall p: nat :: Bit(bits % Pow2(c), p) <==> Bit(bits, p) && p < c
  {
    ModAtMost(bits, Pow2(c));
    forall p: nat ensures Bit(bits % Pow2(c), p) <==> Bit(bits, p) && p < c {
      BitOfMod(bits, c, p);
    }
  }

  lemma LemmaKeep(bits: u32)
    ensures forall p: nat :: Bit(bits, p) ==> p < 32
  {
    Pow2Constants();
    assert bits % Pow2(32) == bits;
    forall p: nat ensures Bit(bits, p) ==> p < 32 {
      BitOfMod(bits, 32, p);
    }
  }

  /** `ProcessorSet::single`: exactly processor `id`; panics if there is no such processor. */
  function Single(cfg: Config, id: nat): (r: Outcome<ProcessorSet>)
    requires cfg.Valid()
    ensures r.Ret? <==> id < cfg.coreMax
    ensures r.Ret? ==> forall p: nat :: Bit(r.value.bits, p) <==> p == id
  {
    if id >= cfg.coreMax then
      Panic("processor ID out of range")
    else
      Pow2Monotone(id, 31);
      Pow2Constants();
      LemmaBitsOfPow2(id);
      Ret(FromBitsTruncating(cfg, Pow2(id)))
  }

  lemma LemmaBitsOfPow2(id: nat)
    ensures forall p: nat :: Bit(Pow2(id), p) <==> p == id
  {
    forall p: nat ensures Bit(Pow2(id), p) <==> p == id {
      BitOfPow2(id, p);
    }
  }

  /** `ProcessorSet::all`: every processor of the system and nothing else. */
  function All(cfg: Config): (r: ProcessorSet)
    requires cfg.Valid()
    ensures forall p: nat :: Bit(r.bits, p) <==> p < cfg.coreMax
  {
    Pow2Constants();
    LemmaBitsOfOnes(32, U32_MAX);
    FromBitsTruncating(cfg, U32_MAX)
  }

  lemma LemmaBitsOfOnes(n: nat, ones: nat)
    requires ones == Pow2(n) - 1
    ensures forall p: nat :: Bit(ones, p) <==> p < n
  {
    forall p: nat ensures Bit(ones, p) <==> p < n {
      BitOfOnes(n, p);
    }
  }

  /** `ProcessorSet::as_u32_bits`. */
  function AsU32Bits(s: ProcessorSet): u32 {
    s.bits
  }

  /** `smp::num_processors`: `All` holds exactly the processors numbered below it. */
  function NumProcessors(cfg: Config): (r: nat)
    requires cfg.Valid()
    ensures 1 <= r <= 32
    ensures forall p: nat :: Bit(All(cfg).bits, p) <==> p < r
  {
    cfg.coreMax
  }

  datatype RemoteCallError = NotReady | BadProcessor

  /** How running a user closure ends: with a value, or with a panic and its payload. */
  datatype Run<+R> = Returns(value: R) | Panics(payload: string)

  /**
   * The payload of the first panicking execution (in the order the OS ran
   * them), if any.
   */
  function FirstPanic(f: nat -> Run<Unit>, runs: seq<nat>): Option<string> {
    if runs == [] then None
    else if f(runs[0]).Panics? then Some(f(runs[0]).payload)
    else FirstPanic(f, runs[1..])
  }

  /** No panic is reported exactly when every execution returned. */
  lemma {:induction false} FirstPanicNone(f: nat -> Run<Unit>, runs: seq<nat>)
    ensures FirstPanic(f, runs).None? <==> forall k :: 0 <= k < |runs| ==> f(runs[k]).Returns?
  {
    if runs != [] && f(runs[0]).Returns? {
      FirstPanicNone(f, runs[1..]);
      forall k | 1 <= k < |runs|
        ensures runs[k] == runs[1..][k - 1]
      {
      }
    }
  }

  /** A reported payload is that of execution `k`, and every execution before `k` returned. */
  lemma {:induction false} FirstPanicWitness(f: nat -> Run<Unit>, runs: seq<nat>) returns (k: nat)
    requires FirstPanic(f, runs).Some?
    ensures k < |runs| && f(runs[k]) == Panics(FirstPanic(f, runs).value)
    ensures forall j :: 0 <= j < k ==> f(runs[j]).Returns?
  {
    if f(runs[0]).Panics? {
      k := 0;
    } else {
      var k' := FirstPanicWitness(f, runs[1..]);
      k := k' + 1;
      assert runs[k] == runs[1..][k'];
      forall j | 0 <= j < k
        ensures f(runs[j]).Returns?
      {
        if j > 0 {
          assert runs[j] == runs[1..][j - 1];
        }
      }
    }
  }

  lemma {:induction false} FirstPanicSnoc(f: nat -> Run<Unit>, runs: seq<nat>, x: nat)
    ensures FirstPanic(f, runs + [x])
            == if FirstPanic(f, runs).Some? then FirstPanic(f, runs)
               else if f(x).Panics? then Some(f(x).payload) else None
  {
    if runs != [] {
      assert (runs + [x])[1..] == runs[1..] + [x];
      FirstPanicSnoc(f, runs[1..], x);
    }
  }

  /** A set-once cell (`OnceCell`): only the first `Set` stores its value. */
  class OnceCell<T> {
    var value: Option<T>

    constructor ()
      ensures value == None
    {
      value := None;
    }

    method Set(v: T) returns (stored: bool)
      modifies this
      ensures stored == old(value).None?
      ensures value == if stored then Some(v) else old(value)
    {
      stored := value.None?;
      if stored {
        value := Some(v);
      }
    }
  }

  /** The trampoline of `call_on_processors` on each processor of `runs`: keep the first panic. */
  method CatchAll(caught: OnceCell<string>, f: nat -> Run<Unit>, runs: seq<nat>)
    requires caught.value == None
    modifies caught
    ensures caught.value == FirstPanic(f, runs)
  {
    var i := 0;
    while i < |runs|
      invariant 0 <= i <= |runs|
      invariant caught.value == FirstPanic(f, runs[..i])
    {
      FirstPanicSnoc(f, runs[..i], runs[i]);
      assert runs[..i + 1] == runs[..i] + [runs[i]];
      var run := f(runs[i]);
      if run.Panics? {
        var _ := caught.Set(run.payload);
      }
      i := i + 1;
    }
    assert runs[..i] == runs;
  }

  /**
   * `call_on_processors_no_unwind`: ask the OS to run `f` on the processors
   * of `mask`. `runs` lists, in order, the processors on which the OS runs
   * the trampoline when it accepts the request; a panic in any of them
   * aborts the program.
   */
  method CallOnProcessorsNoUnwind(m: Machine, mask: ProcessorSet, f: nat -> Run<Unit>,
                                  runs: seq<nat>, status: i32)
    returns (r: Outcome<Result<Unit, RemoteCallError>>)
    modifies m`log
    ensures m.log == old(m.log) + [SmpForEachCpu(mask.bits)]
    ensures status == SOLID_ERR_OK ==>
      r == if forall k :: 0 <= k < |runs| ==> f(runs[k]).Returns? then Ret(Ok(Unit)) else Abort
    ensures status == SOLID_ERR_NOTREADY ==> r == Ret(Err(NotReady))
    ensures status != SOLID_ERR_OK && status != SOLID_ERR_NOTREADY ==> r.Panic?
  {
    m.Record(SmpForEachCpu(mask.bits));
    if status != SOLID_ERR_OK {
      if status == SOLID_ERR_NOTREADY {
        return Ret(Err(NotReady));
      }
      return Panic("SOLID_SMP_ForEachCPU failed");
    }
    var i := 0;
    while i < |runs|
      invariant 0 <= i <= |runs|
      invariant forall k :: 0 <= k < i ==> f(runs[k]).Returns?
    {
      // The trampoline: `abort_on_unwind(|| f())`.
      if f(runs[i]).Panics? {
        return Abort;
      }
      i := i + 1;
    }
    r := Ret(Ok(Unit));
  }

  /**
   * `call_on_processors`: like the no-unwind variant, but each execution
   * catches its panic and offers it to a set-once cell; after all
   * executions the first caught panic is re-raised.
   */
  method CallOnProcessors(m: Machine, mask: ProcessorSet, f: nat -> Run<Unit>,
                          runs: seq<nat>, status: i32)
    returns (r: Outcome<Result<Unit, RemoteCallError>>)
    modifies m`log
    ensures m.log == old(m.log) + [SmpForEachCpu(mask.bits)]
    ensures status == SOLID_ERR_OK ==>
      r == match FirstPanic(f, runs) case Some(p) => Panic(p) case None => Ret(Ok(Unit))
    ensures status == SOLID_ERR_NOTREADY ==> r == Ret(Err(NotReady))
    ensures status != SOLID_ERR_OK && status != SOLID_ERR_NOTREADY ==> r.Panic?
  {
    var caught := new OnceCell<string>();
    m.Record(SmpForEachCpu(mask.bits));
    if status != SOLID_ERR_OK {
      if status == SOLID_ERR_NOTREADY {
        return Ret(Err(NotReady));
      }
      return Panic("SOLID_SMP_ForEachCPU failed");
    }
    CatchAll(caught, f, runs);
    match caught.value {
      case Some(p) => r := Panic(p);
      case None => r := Ret(Ok(Unit));
    }
  }

  /** What the `St` union of `call_on_processor_no_unwind` holds. */
  datatype StVal<R> = HoldsF(f: nat -> Run<R>) | Vacant | HoldsR(r: R)

  class St<R> {
    var val: StVal<R>

    constructor (f: nat -> Run<R>)
      ensures val == HoldsF(f)
    {
      val := HoldsF(f);
    }

    /**
     * The remote trampoline: take `f` out of the slot once, run it on
     * `processor`, and write its result back once; a panic aborts.
     */
    method Trampoline(processor: nat) returns (aborted: bool)
      requires val.HoldsF?
      modifies this
      ensures aborted == old(val).f(processor).Panics?
      ensures !aborted ==> val == HoldsR(old(val).f(processor).value)
      ensures aborted ==> val == Vacant
    {
      var f := val.f;
      val := Vacant;
      var res := f(processor);
      if res.Panics? {
        return true;
      }
      val := HoldsR(res.value);
      aborted := false;
    }
  }

  /**
   * `call_on_processor_no_unwind`: run `f` on processor `id` through
   * SOLID_SMP_RequestExec, whose status is `status`.
   */
  method CallOnProcessorNoUnwind<R>(m: Machine, id: nat, f: nat -> Run<R>, status: i32)
    returns (r: Outcome<Result<R, RemoteCallError>>)
    requires m.Valid()
    modifies m`log
    ensures id >= m.cfg.coreMax ==> r == Ret(Err(BadProcessor)) && m.log == old(m.log)
    ensures id < m.cfg.coreMax ==> m.log == old(m.log) + [SmpRequestExec(id)]
    ensures id < m.cfg.coreMax && status == SOLID_ERR_OK ==>
      r == match f(id) case Returns(v) => Ret(Ok(v)) case Panics(_) => Abort
    ensures id < m.cfg.coreMax && status == SOLID_ERR_NOTREADY ==> r == Ret(Err(NotReady))
    ensures id < m.cfg.coreMax && status == SOLID_ERR_PAR ==> r == Ret(Err(BadProcessor))
    ensures id < m.cfg.coreMax && status !in {SOLID_ERR_OK, SOLID_ERR_NOTREADY, SOLID_ERR_PAR} ==> r.Panic?
  {
    if id >= NumProcessors(m.cfg) {
      return Ret(Err(BadProcessor));
    }
    var st := new St(f);
    m.Record(SmpRequestExec(id));
    if status != SOLID_ERR_OK {
      // Drop the closure that was never consumed.
      st.val := Vacant;
      if status == SOLID_ERR_NOTREADY {
        return Ret(Err(NotReady));
      } else if status == SOLID_ERR_PAR {
        return Ret(Err(BadProcessor));
      }
      return Panic("SOLID_SMP_RequestExec failed");
    }
    var aborted := st.Trampoline(id);
    if aborted {
      return Abort;
    }
    r := Ret(Ok(st.val.r));
  }

  /** `catch_unwind` around one run of a closure. */
  function CatchUnwind<R>(run: Run<R>): Result<R, string> {
    match run
    case Returns(v) => Ok(v)
    case Panics(p) => Err(p)
  }

  /**
   * `call_on_processor`: like the no-unwind variant, but a panic of `f` is
   * caught on the remote processor and re-raised to the caller.
   */
  method CallOnProcessor<R>(m: Machine, id: nat, f: nat -> Run<R>, status: i32)
    returns (r: Outcome<Result<R, RemoteCallError>>)
    requires m.Valid()
    modifies m`log
    ensures r != Abort
    ensures id >= m.cfg.coreMax ==> r == Ret(Err(BadProcessor)) && m.log == old(m.log)
    ensures id < m.cfg.coreMax ==> m.log == old(m.log) + [SmpRequestExec(id)]
    ensures id < m.cfg.coreMax && status == SOLID_ERR_OK ==>
      r == match f(id) case Returns(v) => Ret(Ok(v)) case Panics(p) => Panic(p)
    ensures id < m.cfg.coreMax && status == SOLID_ERR_NOTREADY ==> r == Ret(Err(NotReady))
    ensures id < m.cfg.coreMax && status == SOLID_ERR_PAR ==> r == Ret(Err(BadProcessor))
    ensures id < m.cfg.coreMax && status !in {SOLID_ERR_OK, SOLID_ERR_NOTREADY, SOLID_ERR_PAR} ==> r.Panic?
  {
    var caught := (p: nat) => Returns(CatchUnwind(f(p)));
    var x := CallOnProcessorNoUnwind(m, id, caught, status);
    match x {
      case Ret(Err(e)) => r := Ret(Err(e));
      case Ret(Ok(Ok(v))) => r := Ret(Ok(v));
      case Ret(Ok(Err(p))) => r := Panic(p);   // resume_unwind
      case Panic(msg) => r := Panic(msg);
      case Abort => r := Abort;
    }
  }
}
