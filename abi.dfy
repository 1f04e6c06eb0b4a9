/**
 * The SOLID OS interface the core is written against: integer widths,
 * status codes, platform constants, the processor's DAIF interrupt mask
 * (SOLID_MUTEX_PushInt / SOLID_MUTEX_PopInt) and a log of OS calls.
 */
module Abi {
  import opened Wrappers

  type i8 = x: int | -0x80 <= x < 0x80
  type u8 = x: int | 0 <= x < 0x100
  type i32 = x: int | -0x8000_0000 <= x < 0x8000_0000
  type u32 = x: int | 0 <= x < 0x1_0000_0000
  type u64 = x: int | 0 <= x < 0x1_0000_0000_0000_0000
  /** aarch64: `usize` is 64 bits wide. */
  type usize = u64

  const U32_MAX: int := 0xffff_ffff
  const USIZE_MAX: int := 0xffff_ffff_ffff_ffff

  // SOLID status codes.
  const SOLID_ERR_OK: i32 := 0
  const SOLID_ERR_PAR: i32 := -17
  const SOLID_ERR_MACV: i32 := -26
  const SOLID_ERR_NOMEM: i32 := -33
  const SOLID_ERR_NORES: i32 := -35
  const SOLID_ERR_NOTFOUND: i32 := -1000
  const SOLID_ERR_NOTSUPPORTED: i32 := -1001
  const SOLID_ERR_EBADF: i32 := -1002
  const SOLID_ERR_INVALIDCONTENT: i32 := -1003
  const SOLID_ERR_NOTUSED: i32 := -1004
  const SOLID_ERR_ALREADYUSED: i32 := -1005
  const SOLID_ERR_OUTOFBOUND: i32 := -1006
  const SOLID_ERR_BADSEQUENCE: i32 := -1007
  const SOLID_ERR_UNKNOWNDEVICE: i32 := -1008
  const SOLID_ERR_BUSY: i32 := -1009
  const SOLID_ERR_TIMEOUT: i32 := -1010
  const SOLID_ERR_INVALIDACCESS: i32 := -1011
  const SOLID_ERR_NOTREADY: i32 := -1012

  /** Every error status code, in declaration order (all but SOLID_ERR_OK). */
  function ErrorCodes(): seq<i32> {
    [SOLID_ERR_PAR, SOLID_ERR_MACV, SOLID_ERR_NOMEM, SOLID_ERR_NORES,
     SOLID_ERR_NOTFOUND, SOLID_ERR_NOTSUPPORTED, SOLID_ERR_EBADF,
     SOLID_ERR_INVALIDCONTENT, SOLID_ERR_NOTUSED, SOLID_ERR_ALREADYUSED,
     SOLID_ERR_OUTOFBOUND, SOLID_ERR_BADSEQUENCE, SOLID_ERR_UNKNOWNDEVICE,
     SOLID_ERR_BUSY, SOLID_ERR_TIMEOUT, SOLID_ERR_INVALIDACCESS,
     SOLID_ERR_NOTREADY]
  }

  /** OK is zero; every error code is negative, and no two coincide. */
  lemma ErrorCodesDistinctNegative()
    ensures SOLID_ERR_OK == 0 && SOLID_ERR_OK !in ErrorCodes()
    ensures forall k :: 0 <= k < |ErrorCodes()| ==> ErrorCodes()[k] < 0
    ensures forall j, k :: 0 <= j < k < |ErrorCodes()| ==> ErrorCodes()[j] != ErrorCodes()[k]
  {
  }

  /**
   * Platform constants that come from SOLID headers: SOLID_CORE_MAX,
   * GIC_MAXINTNO, whether SOLID_TIMER_EACHCPU is defined, and the three
   * SOLID_TIMER_TYPE_* values.
   */
  datatype Config = Config(
    coreMax: nat,
    gicMaxIntNo: nat,
    timerEachCpu: bool,
    timerTypeOneShot: u32,
    timerTypeInterval: u32,
    timerTypeGlobalTick: u32)
  {
    ghost predicate Valid() {
      && 1 <= coreMax <= 32
      && 32 <= gicMaxIntNo < 0x8000_0000
      && timerTypeOneShot != timerTypeInterval
      && timerTypeOneShot != timerTypeGlobalTick
      && timerTypeInterval != timerTypeGlobalTick
    }
  }

  /** The D, A, I and F mask bits of PSTATE (true = masked). */
  datatype Daif = Daif(d: bool, a: bool, i: bool, f: bool)

  /** The value `mrs x, DAIF` reads: D is bit 9, A bit 8, I bit 7, F bit 6. */
  function DaifBits(s: Daif): bv64 {
    (if s.d then 0x200 else 0) | (if s.a then 0x100 else 0)
    | (if s.i then 0x80 else 0) | (if s.f then 0x40 else 0)
  }

  /** The effect of `msr DAIFset, #3`: mask IRQ and FIQ. */
  function Masked(s: Daif): Daif {
    s.(i := true, f := true)
  }

  /**
   * The effect of SOLID_MUTEX_PopInt(status): dispatch on bits 7..6 of the
   * saved value and issue the matching `msr DAIFclr`.
   */
  function Restored(s: Daif, status: bv64): Daif {
    match status & 0xc0
    case 0x00 => s.(i := false, f := false)   // DAIFclr #3
    case 0x40 => s.(i := false)               // DAIFclr #2
    case 0x80 => s.(f := false)               // DAIFclr #1
    case _ => s
  }

  /** PopInt only ever unmasks, and only what was unmasked when `status` was saved. */
  lemma RestoredOnlyUnmasks(s: Daif, status: bv64)
    ensures Restored(s, status).d == s.d && Restored(s, status).a == s.a
    ensures Restored(s, status).i == (s.i && status & 0x80 != 0)
    ensures Restored(s, status).f == (s.f && status & 0x40 != 0)
  {
  }

  /** PopInt(PushInt()) gives back the original mask. */
  lemma PushPopRestores(s: Daif)
    ensures Masked(s).i && Masked(s).f
    ensures Restored(Masked(s), DaifBits(s)) == s
  {
  }

  /** Nested push, push, pop, pop in LIFO order restores the original mask. */
  lemma NestedPushPopRestores(s: Daif)
    ensures Restored(Restored(Masked(Masked(s)), DaifBits(Masked(s))), DaifBits(s)) == s
  {
    PushPopRestores(Masked(s));
    PushPopRestores(s);
  }

  datatype FuncPtr = NullFn | Trampoline

  /** A SOLID_INTC_HANDLER descriptor; `param` is the owning object (null if none). */
  datatype IntcDesc = IntcDesc(intno: i32, priority: i32, config: i32, func: FuncPtr, param: object?)

  /** The caller-visible fields of a SOLID_TIMER_HANDLER descriptor. */
  datatype TimerDesc = TimerDesc(globalTick: u64, ty: u32, time: u32, func: FuncPtr, param: object?)

  /** One call into the OS, with whether IRQ and FIQ were both masked at the time. */
  datatype OsCall =
    | IntcRegister(desc: IntcDesc, targets: i8, masked: bool)
    | IntcUnregister(desc: IntcDesc, masked: bool)
    | IntcEnable(intno: i32, masked: bool)
    | IntcDisable(intno: i32, masked: bool)
    | TimerRegister(tdesc: TimerDesc, masked: bool)
    | TimerUnregister(tdesc: TimerDesc, masked: bool)
    | TimerCallback(masked: bool)
    | SmpForEachCpu(bits: u32)
    | SmpRequestExec(processor: nat)

  /**
   * The running thread's view of the machine: the processor it runs on,
   * that processor's DAIF mask, whether it is handling an exception
   * (`exceptions::active()`), and every OS call made so far.
   */
  class Machine {
    const cfg: Config
    var cpuId: nat
    var exceptionActive: bool
    var daif: Daif
    var log: seq<OsCall>

    ghost predicate Valid() reads this {
      cfg.Valid() && cpuId < cfg.coreMax
    }

    constructor (cfg: Config, cpuId: nat, exceptionActive: bool, daif: Daif)
      requires cfg.Valid() && cpuId < cfg.coreMax
      ensures Valid() && this.cfg == cfg && this.cpuId == cpuId
      ensures this.exceptionActive == exceptionActive && this.daif == daif && log == []
    {
      this.cfg, this.cpuId, this.exceptionActive, this.daif, log := cfg, cpuId, exceptionActive, daif, [];
    }

    predicate IsMasked() reads this {
      daif.i && daif.f
    }

    /** SOLID_MUTEX_PushInt: save DAIF and mask IRQ and FIQ. */
    method PushInt() returns (status: bv64)
      modifies this`daif
      ensures status == DaifBits(old(daif)) && daif == Masked(old(daif))
    {
      status := DaifBits(daif);
      daif := Masked(daif);
    }

    /** SOLID_MUTEX_PopInt: unmask what was unmasked when `status` was saved. */
    method PopInt(status: bv64)
      modifies this`daif
      ensures daif == Restored(old(daif), status)
    {
      var bits := status & 0xc0;
      if bits == 0x00 {
        daif := daif.(i := false, f := false);
      } else if bits == 0x40 {
        daif := daif.(i := false);
      } else if bits == 0x80 {
        daif := daif.(f := false);
      }
    }

    /** PopInt with the value PushInt saved from `saved`, nothing having touched the mask since. */
    method PopIntRestoring(status: bv64, ghost saved: Daif)
      requires status == DaifBits(saved) && daif == Masked(saved)
      modifies this`daif
      ensures daif == saved
    {
      PopInt(status);
      PushPopRestores(saved);
    }

    /** SOLID_MUTEX_EnaInt (not part of this model's sources): unmask IRQ and FIQ. */
    method EnaInt()
      modifies this`daif
      ensures daif == old(daif).(i := false, f := false)
    {
      daif := daif.(i := false, f := false);
    }

    /** SOLID_MUTEX_DisInt (not part of this model's sources): mask IRQ and FIQ. */
    method DisInt()
      modifies this`daif
      ensures daif == Masked(old(daif))
    {
      daif := Masked(daif);
    }

    /** Append one OS call to the log. */
    method Record(c: OsCall)
      modifies this`log
      ensures log == old(log) + [c]
    {
      log := log + [c];
    }
  }
}
