/**
 * Interrupt control: the critical section, interrupt numbers and lines, the
 * per-line spinlock table, handler options, and the `Handler` registration
 * state machine.
 */
module Interrupt {
  import opened Wrappers
  import opened Abi
  import opened Smp
  import opened Arith

  /** A token standing for "interrupts are masked"; it has no operations. */
  datatype CriticalSection = CriticalSection

  /**
   * `interrupt::free`: run `f` with IRQ and FIQ masked, then put back the
   * mask that was saved on entry.
   */
  method Free<R>(m: Machine, f: CriticalSection -> R) returns (r: R)
    modifies m`daif
    ensures r == f(CriticalSection)
    ensures m.daif == old(m.daif)
  {
    var saved := m.PushInt();
    assert m.IsMasked();
    r := f(CriticalSection);
    m.PopIntRestoring(saved, old(m.daif));
  }

  /** The number of interrupt lines: one per SPI, and one per PPI per processor. */
  function NumLines(cfg: Config): nat
    requires cfg.Valid()
  {
    cfg.gicMaxIntNo + (cfg.coreMax - 1) * 32
  }

  /** The number of 64-bit words of the spinlock table. */
  function LineTableLen(cfg: Config): nat
    requires cfg.Valid()
  {
    (NumLines(cfg) + 64 - 1) / 64
  }

  /**
   * `Line::from_intno_for_current_processor`: the line of interrupt number
   * `n` as seen from processor `cpu`. Numbers below 32 are per-processor
   * (PPIs, IDs 16..31 and the SGIs below them in section 2.2.1 of the Arm
   * GIC Architecture Specification v2.0); the others are shared.
   */
  function LineFor(cfg: Config, n: Number, cpu: nat): (r: Option<nat>)
    requires cfg.Valid() && cpu < cfg.coreMax
    ensures n.n < 0 ==> r == None
    ensures 0 <= n.n < 32 ==> r == Some(n.n + 32 * cpu)
    ensures n.n >= 32 ==> r == if n.n < cfg.gicMaxIntNo then Some(n.n + 32 * (cfg.coreMax - 1)) else None
    ensures r.Some? ==> r.value < NumLines(cfg)
  {
    if n.n < 0 then None                      // `usize::try_from` fails
    else
      var processor := if n.n < 32 then cpu else cfg.coreMax - 1;
      // `checked_add` cannot overflow here: `x` is below 2^31 + 32 * 32.
      var x := n.n + processor * 32;
      if x < NumLines(cfg) then Some(x) else None
  }

  /** A per-processor line determines its number and its processor. */
  lemma PrivateLineDecodes(cfg: Config, n: Number, cpu: nat)
    requires cfg.Valid() && cpu < cfg.coreMax && 0 <= n.n < 32
    ensures LineFor(cfg, n, cpu).Some?
    ensures LineFor(cfg, n, cpu).value / 32 == cpu && LineFor(cfg, n, cpu).value % 32 == n.n
    ensures LineFor(cfg, n, cpu).value < 32 * cfg.coreMax
  {
    DivModUnique(n.n + 32 * cpu, 32, cpu, n.n);
  }

  /** A shared line determines its number, and lies above every per-processor line. */
  lemma SharedLineDecodes(cfg: Config, n: Number, cpu: nat)
    requires cfg.Valid() && cpu < cfg.coreMax && n.n >= 32 && LineFor(cfg, n, cpu).Some?
    ensures LineFor(cfg, n, cpu).value >= 32 * cfg.coreMax
    ensures LineFor(cfg, n, cpu).value - 32 * (cfg.coreMax - 1) == n.n
  {
  }

  /**
   * Distinct (number, processor) pairs of PPIs and distinct SPI numbers get
   * distinct lines, and every PPI line is below every SPI line; the line
   * of an SPI does not depend on the processor.
   */
  lemma {:induction false} LinesDistinct(cfg: Config, a: Number, ca: nat, b: Number, cb: nat)
    requires cfg.Valid() && ca < cfg.coreMax && cb < cfg.coreMax
    requires LineFor(cfg, a, ca).Some? && LineFor(cfg, b, cb).Some?
    ensures a.n < 32 && b.n < 32 ==>
      (LineFor(cfg, a, ca) == LineFor(cfg, b, cb) <==> a == b && ca == cb)
    ensures a.n >= 32 && b.n >= 32 ==>
      (LineFor(cfg, a, ca) == LineFor(cfg, b, cb) <==> a == b)
    ensures a.n < 32 && b.n >= 32 ==> LineFor(cfg, a, ca).value < LineFor(cfg, b, cb).value
  {
    if a.n < 32 { PrivateLineDecodes(cfg, a, ca); }
    if b.n < 32 { PrivateLineDecodes(cfg, b, cb); }
    if b.n >= 32 { SharedLineDecodes(cfg, b, cb); }
  }

  /** `Line::index_mask`: the table word, and `1usize.rotate_left(line as u32)`. */
  function IndexMask(line: nat): (nat, bv64) {
    // `line as u32` keeps `line % 2^32`, and a 64-bit rotation uses the amount modulo 64.
    (line / 64, (1 as bv64).RotateLeft(line % 0x1_0000_0000 % 64))
  }

  /** Every valid line has its word inside the table and a single-bit mask at `line % 64`. */
  lemma IndexMaskInTable(cfg: Config, line: nat)
    requires cfg.Valid() && line < NumLines(cfg)
    ensures IndexMask(line).0 < LineTableLen(cfg)
    ensures IndexMask(line).1 == (1 as bv64) << (line % 64)
  {
    IndexInTable(cfg, line);
    ModOfTruncation(line);
    RotateOne(line % 64);
  }

  /** Every valid line has its word inside the table. */
  lemma IndexInTable(cfg: Config, line: nat)
    requires cfg.Valid() && line < NumLines(cfg)
    ensures IndexMask(line).0 < LineTableLen(cfg)
  {
  }

  /** The guard `Line::lock` returns: the word it locked and `!mask`. */
  datatype LineGuard = LineGuard(index: nat, keep: bv64)

  function GuardFor(line: nat): LineGuard {
    LineGuard(IndexMask(line).0, !IndexMask(line).1)
  }

  /** `LINE_SPINLOCK`: one bit per line; a set bit means the line is locked. */
  class LineTable {
    const cfg: Config
    const words: array<bv64>

    ghost predicate Valid() reads this {
      cfg.Valid() && words.Length == LineTableLen(cfg)
    }

    /** No line is locked. */
    ghost predicate Idle() reads this, words {
      forall k :: 0 <= k < words.Length ==> words[k] == 0
    }

    ghost predicate Held(line: nat) reads this, words
      requires Valid() && line < NumLines(cfg)
    {
      IndexInTable(cfg, line);
      words[IndexMask(line).0] & IndexMask(line).1 != 0
    }

    /** Exactly the bits `g` locked are set: `!g.keep` in word `g.index`, nothing elsewhere. */
    ghost predicate LockedBy(g: LineGuard) reads this, words {
      forall k :: 0 <= k < words.Length ==>
        words[k] == if k == g.index then !g.keep else 0
    }

    constructor (cfg: Config)
      requires cfg.Valid()
      ensures this.cfg == cfg && Valid() && Idle() && fresh(words)
    {
      this.cfg := cfg;
      words := new bv64[LineTableLen(cfg)](_ => 0);
    }

    /**
     * `Line::lock`: one `fetch_or` of the line's bit. The spin loop around
     * it waits for another processor to release the line; in this
     * sequential model the line is free on entry.
     */
    method Lock(line: nat) returns (g: LineGuard)
      requires Valid() && line < NumLines(cfg) && !Held(line)
      modifies words
      ensures g == GuardFor(line) && g.index < words.Length
      ensures words[g.index] == old(words[g.index]) | !g.keep
      ensures forall k :: 0 <= k < words.Length && k != g.index ==> words[k] == old(words[k])
      ensures Held(line)
      ensures old(Idle()) ==> LockedBy(g)
    {
      IndexInTable(cfg, line);
      var (index, mask) := IndexMask(line);
      g := LineGuard(index, !mask);
      NotNot(mask);
      assert !g.keep == mask;
      MaskNonZero(line);
      var prev := words[index];
      LockSetsBit(prev, mask);
      words[index] := prev | mask;
    }

    /** `Line::lock` on a table where no line is locked: exactly this line's bit ends up set. */
    method LockIdle(line: nat) returns (g: LineGuard)
      requires Valid() && line < NumLines(cfg) && Idle()
      modifies words
      ensures g == GuardFor(line) && g.index < words.Length && LockedBy(g)
    {
      IndexInTable(cfg, line);
      g := Lock(line);
    }

    /** Dropping the guard: `fetch_and(!mask)` clears the line's bit. */
    method Release(g: LineGuard)
      requires g.index < words.Length
      modifies words
      ensures words[g.index] == old(words[g.index]) & g.keep
      ensures forall k :: 0 <= k < words.Length && k != g.index ==> words[k] == old(words[k])
      ensures old(LockedBy(g)) ==> Idle()
    {
      words[g.index] := words[g.index] & g.keep;
      ReleaseClears(g.keep);
    }
  }

  /** Locking a free bit and then releasing it gives the original word back. */
  lemma LockThenReleaseRestores(w: bv64, mask: bv64)
    requires w & mask == 0
    ensures (w | mask) & !mask == w
  {
  }

  lemma NotNot(mask: bv64)
    ensures !!mask == mask
  {
  }

  /** Clearing the bits a guard locked leaves nothing set. */
  lemma ReleaseClears(keep: bv64)
    ensures !keep & keep == 0
  {
  }

  /** Setting a non-zero mask leaves its bits set. */
  lemma LockSetsBit(w: bv64, mask: bv64)
    requires mask != 0
    ensures (w | mask) & mask != 0
  {
  }

  /** Every line's mask has a bit set. */
  lemma MaskNonZero(line: nat)
    ensures IndexMask(line).1 != 0
  {
    var k := line % 0x1_0000_0000 % 64;
    RotateOne(k);
    ShiftOneNonZero(k);
  }

  lemma ShiftOneNonZero(k: nat)
    requires k < 64
    ensures (1 as bv64) << k != 0
  {
  }

  datatype RegisterError = InterruptLineAlreadyHasHandler | BadParam

  datatype EnableError = NoHandler | BadParam

  /** Options for `Handler::register`. */
  datatype HandlerOptions = HandlerOptions(intno: Number, priority: i32, config: i32, processorSet: ProcessorSet)

  /** `HandlerOptions::new`: default configuration (-1), targeting processor 0. */
  function NewOptions(cfg: Config, intno: Number, priority: i32): (o: HandlerOptions)
    requires cfg.Valid()
    ensures o.intno == intno && o.priority == priority && o.config == -1
    ensures forall p: nat :: Bit(o.processorSet.bits, p) <==> p == 0
  {
    HandlerOptions(intno, priority, -1, Single(cfg, 0).value)
  }

  /** `with_edge_triggered`. */
  function WithEdgeTriggered(o: HandlerOptions): (r: HandlerOptions)
    ensures r == o.(config := 2)
  {
    o.(config := 2)
  }

  /** `with_level_triggered` as written: it stores the edge-triggered value 2. */
  function WithLevelTriggered(o: HandlerOptions): (r: HandlerOptions)
    ensures r == o.(config := 2)
  {
    o.(config := 2)
  }

  /** The two builders cannot be told apart. */
  lemma LevelTriggeredIsEdgeTriggered(o: HandlerOptions)
    ensures WithLevelTriggered(o) == WithEdgeTriggered(o)
  {
  }

  /** `with_level_triggered` as its name promises: Int_config bit 1 clear means level-sensitive. */
  function WithLevelTriggeredCorrected(o: HandlerOptions): (r: HandlerOptions)
    ensures r == o.(config := 0)
  {
    o.(config := 0)
  }

  /** The corrected builder differs from the edge-triggered one, and only in `config`. */
  lemma LevelTriggeredCorrectedDiffers(o: HandlerOptions)
    ensures WithLevelTriggeredCorrected(o) != WithEdgeTriggered(o)
    ensures WithLevelTriggeredCorrected(o).(config := 2) == WithEdgeTriggered(o)
  {
  }

  /** `with_target_processor`: panics if the processor does not exist. */
  function WithTargetProcessor(cfg: Config, o: HandlerOptions, id: nat): (r: Outcome<HandlerOptions>)
    requires cfg.Valid()
    ensures r.Ret? <==> id < cfg.coreMax
    ensures r.Ret? ==> r.value == o.(processorSet := r.value.processorSet)
                        && forall p: nat :: Bit(r.value.processorSet.bits, p) <==> p == id
  {
    match Single(cfg, id)
    case Ret(s) => Ret(WithTargetProcessorSet(o, s))
    case Panic(msg) => Panic(msg)
    case Abort => Abort
  }

  /** `with_target_processor_set`. */
  function WithTargetProcessorSet(o: HandlerOptions, s: ProcessorSet): (r: HandlerOptions)
    ensures r == o.(processorSet := s)
  {
    o.(processorSet := s)
  }

  /** `processor_set as i8` after the `u8::try_from` check. */
  function AsI8(b: u8): i8 {
    if b >= 0x80 then b - 0x100 else b
  }

  /** How `register` maps the status of SOLID_INTC_RegisterWithTargetProcess. */
  function RegisterResult(status: i32): (r: Outcome<Result<bool, RegisterError>>)
    ensures r == Ret(Ok(true)) <==> status == SOLID_ERR_OK
    ensures r == Ret(Err(RegisterError.BadParam)) <==> status == SOLID_ERR_PAR
    ensures r == Ret(Err(InterruptLineAlreadyHasHandler)) <==> status == SOLID_ERR_ALREADYUSED
    ensures r.Panic? <==> status !in {SOLID_ERR_OK, SOLID_ERR_PAR, SOLID_ERR_ALREADYUSED}
  {
    if status == SOLID_ERR_OK then Ret(Ok(true))
    else if status == SOLID_ERR_PAR then Ret(Err(RegisterError.BadParam))
    else if status == SOLID_ERR_ALREADYUSED then Ret(Err(InterruptLineAlreadyHasHandler))
    else Panic("SOLID_INTC_Register failed")
  }

  /** The OS calls `enable_raw` and `disable_raw` name when they panic. */
  const ENABLE: string := "SOLID_INTC_Enable"
  const DISABLE: string := "SOLID_INTC_Disable"

  /** How `enable_raw` and `disable_raw` map the status of SOLID_INTC_Enable / _Disable. */
  function EnableResult(status: i32, call: string): (r: Outcome<Result<Unit, EnableError>>)
    ensures r == Ret(Ok(Unit)) <==> status == SOLID_ERR_OK
    ensures r == Ret(Err(EnableError.BadParam)) <==> status == SOLID_ERR_PAR
    ensures r == Ret(Err(NoHandler)) <==> status == SOLID_ERR_NOTUSED
    ensures r.Panic? <==> status !in {SOLID_ERR_OK, SOLID_ERR_PAR, SOLID_ERR_NOTUSED}
  {
    if status == SOLID_ERR_OK then Ret(Ok(Unit))
    else if status == SOLID_ERR_PAR then Ret(Err(EnableError.BadParam))
    else if status == SOLID_ERR_NOTUSED then Ret(Err(NoHandler))
    else Panic(call + " failed")
  }

  /** An interrupt number; below 32 it names a different line on each processor. */
  datatype Number = Number(n: i32)
  {
    /**
     * `Number::enable`: in a critical section, find the line, lock it and
     * call SOLID_INTC_Enable (whose status is `status`).
     */
    method Enable(m: Machine, lt: LineTable, status: i32) returns (r: Outcome<Result<Unit, EnableError>>)
      requires m.Valid() && lt.Valid() && lt.cfg == m.cfg && lt.Idle()
      modifies m`daif, m`log, lt.words
      ensures m.daif == old(m.daif) && lt.Idle()
      ensures LineFor(m.cfg, this, m.cpuId).None? ==>
        r == Ret(Err(EnableError.BadParam)) && m.log == old(m.log)
      ensures LineFor(m.cfg, this, m.cpuId).Some? ==>
        r == EnableResult(status, ENABLE) && m.log == old(m.log) + [IntcEnable(n, true)]
    {
      var saved := m.PushInt();
      var line := LineFor(m.cfg, this, m.cpuId);
      if line.None? {
        r := Ret(Err(EnableError.BadParam));
      } else {
        var guard := lt.LockIdle(line.value);
        r := EnableRaw(m, status);
        lt.Release(guard);
      }
      m.PopIntRestoring(saved, old(m.daif));
    }

    /** `Number::disable`: as `enable`, calling SOLID_INTC_Disable. */
    method Disable(m: Machine, lt: LineTable, status: i32) returns (r: Outcome<Result<Unit, EnableError>>)
      requires m.Valid() && lt.Valid() && lt.cfg == m.cfg && lt.Idle()
      modifies m`daif, m`log, lt.words
      ensures m.daif == old(m.daif) && lt.Idle()
      ensures LineFor(m.cfg, this, m.cpuId).None? ==>
        r == Ret(Err(EnableError.BadParam)) && m.log == old(m.log)
      ensures LineFor(m.cfg, this, m.cpuId).Some? ==>
        r == EnableResult(status, DISABLE) && m.log == old(m.log) + [IntcDisable(n, true)]
    {
      var saved := m.PushInt();
      var line := LineFor(m.cfg, this, m.cpuId);
      if line.None? {
        r := Ret(Err(EnableError.BadParam));
      } else {
        var guard := lt.LockIdle(line.value);
        r := DisableRaw(m, status);
        lt.Release(guard);
      }
      m.PopIntRestoring(saved, old(m.daif));
    }

    /** `Number::enable_raw`: SOLID_INTC_Enable with no lock and no critical section. */
    method EnableRaw(m: Machine, status: i32) returns (r: Outcome<Result<Unit, EnableError>>)
      modifies m`log
      ensures m.log == old(m.log) + [IntcEnable(n, m.IsMasked())]
      ensures r == EnableResult(status, ENABLE)
    {
      m.Record(IntcEnable(n, m.IsMasked()));
      r := EnableResult(status, ENABLE);
    }

    /** `Number::disable_raw`: SOLID_INTC_Disable with no lock and no critical section. */
    method DisableRaw(m: Machine, status: i32) returns (r: Outcome<Result<Unit, EnableError>>)
      modifies m`log
      ensures m.log == old(m.log) + [IntcDisable(n, m.IsMasked())]
      ensures r == EnableResult(status, DISABLE)
    {
      m.Record(IntcDisable(n, m.IsMasked()));
      r := EnableResult(status, DISABLE);
    }
  }

  /** The safe wrapper of a SOLID interrupt handler. */
  class Handler {
    /** The SOLID_INTC_HANDLER descriptor; `param != null` means registered. */
    var inner: IntcDesc
    /** The line the handler was registered for. */
    var line: nat

    /** `Handler::new`: zeroed descriptor, unregistered, line 0. */
    constructor ()
      ensures inner == IntcDesc(0, 0, 0, NullFn, null) && line == 0
      ensures !IsRegistered()
    {
      inner := IntcDesc(0, 0, 0, NullFn, null);
      line := 0;
    }

    predicate IsRegistered() reads this {
      inner.param != null
    }

    function GetNumber(): Number reads this {
      Number(inner.intno)
    }

    /** The descriptor `register` writes: the options, the trampoline and `param = self`. */
    function Desc(o: HandlerOptions): (d: IntcDesc)
      ensures d.param == this
    {
      IntcDesc(o.intno.n, o.priority, o.config, Trampoline, this)
    }

    /**
     * `Handler::register`: register the descriptor with the OS, whose
     * answer is `status`; on failure `param` is put back to null.
     */
    method Register(m: Machine, lt: LineTable, o: HandlerOptions, status: i32)
      returns (r: Outcome<Result<bool, RegisterError>>)
      requires m.Valid() && lt.Valid() && lt.cfg == m.cfg && lt.Idle()
      modifies this, m`daif, m`log, lt.words
      ensures m.daif == old(m.daif) && lt.Idle()
      ensures IsRegistered() <==> old(IsRegistered()) || r == Ret(Ok(true))
      ensures old(IsRegistered()) ==>
        r == Ret(Ok(false)) && inner == old(inner) && line == old(line) && m.log == old(m.log)
      ensures !old(IsRegistered()) && (LineFor(m.cfg, o.intno, m.cpuId).None? || o.processorSet.bits > 0xff) ==>
        r == Ret(Err(RegisterError.BadParam)) && inner == old(inner) && line == old(line) && m.log == old(m.log)
      ensures !old(IsRegistered()) && LineFor(m.cfg, o.intno, m.cpuId).Some? && o.processorSet.bits <= 0xff ==>
        && r == RegisterResult(status)
        && m.log == old(m.log) + [IntcRegister(Desc(o), AsI8(o.processorSet.bits), true)]
        && inner == (if status == SOLID_ERR_OK then Desc(o) else Desc(o).(param := null))
        && line == (if status == SOLID_ERR_OK then LineFor(m.cfg, o.intno, m.cpuId).value else old(line))
    {
      if IsRegistered() {
        return Ret(Ok(false));
      }
      var saved := m.PushInt();
      var ln := LineFor(m.cfg, o.intno, m.cpuId);
      if ln.None? {
        m.PopIntRestoring(saved, old(m.daif));
        return Ret(Err(RegisterError.BadParam));
      }
      var guard := lt.LockIdle(ln.value);
      if AsU32Bits(o.processorSet) > 0xff {
        lt.Release(guard);
        m.PopIntRestoring(saved, old(m.daif));
        return Ret(Err(RegisterError.BadParam));
      }
      r := Submit(m, o, ln.value, status);
      lt.Release(guard);
      m.PopIntRestoring(saved, old(m.daif));
    }

    /**
     * The part of `register` that runs with the line locked: write the
     * descriptor, call the OS, and keep the line or undo `param`.
     */
    method Submit(m: Machine, o: HandlerOptions, ln: nat, status: i32)
      returns (r: Outcome<Result<bool, RegisterError>>)
      requires o.processorSet.bits <= 0xff
      modifies this, m`log
      ensures r == RegisterResult(status)
      ensures m.log == old(m.log) + [IntcRegister(Desc(o), AsI8(o.processorSet.bits), m.IsMasked())]
      ensures inner == (if status == SOLID_ERR_OK then Desc(o) else Desc(o).(param := null))
      ensures line == (if status == SOLID_ERR_OK then ln else old(line))
    {
      var targets := AsI8(o.processorSet.bits);
      inner := Desc(o);
      m.Record(IntcRegister(inner, targets, m.IsMasked()));
      if status != SOLID_ERR_OK {
        inner := inner.(param := null);   // undo on error
      } else {
        line := ln;
      }
      r := RegisterResult(status);
    }

    /**
     * `Handler::unregister`: recompute the line from the recorded number,
     * insist that it is the recorded line, and unregister from the OS.
     */
    method Unregister(m: Machine, lt: LineTable, status: i32) returns (r: Outcome<bool>)
      requires m.Valid() && lt.Valid() && lt.cfg == m.cfg && lt.Idle()
      modifies this`inner, m`daif, m`log, lt.words
      ensures m.daif == old(m.daif) && lt.Idle()
      ensures !old(IsRegistered()) ==> r == Ret(false) && inner == old(inner) && m.log == old(m.log)
      ensures old(IsRegistered()) && LineFor(m.cfg, old(GetNumber()), m.cpuId) != Some(line) ==>
        r.Panic? && inner == old(inner) && m.log == old(m.log)
      ensures old(IsRegistered()) && LineFor(m.cfg, old(GetNumber()), m.cpuId) == Some(line) ==>
        && m.log == old(m.log) + [IntcUnregister(old(inner), true)]
        && (status == SOLID_ERR_OK ==> r == Ret(true) && inner == old(inner).(param := null))
        && (status != SOLID_ERR_OK ==> r.Panic? && inner == old(inner))
      ensures r == Ret(true) || r == Ret(false) ==> !IsRegistered()
    {
      if !IsRegistered() {
        return Ret(false);
      }
      var saved := m.PushInt();
      var ln := LineFor(m.cfg, GetNumber(), m.cpuId);
      if ln.None? {
        r := Panic("invalid intno");                       // `expect`
      } else if ln.value != line {
        r := Panic("attempted to unregister PPI handler from a different processor");
      } else {
        var guard := lt.LockIdle(ln.value);
        r := Withdraw(m, status);
        lt.Release(guard);
      }
      m.PopIntRestoring(saved, old(m.daif));
    }

    /** The part of `unregister` that runs with the line locked: call the OS and clear `param`. */
    method Withdraw(m: Machine, status: i32) returns (r: Outcome<bool>)
      modifies this`inner, m`log
      ensures m.log == old(m.log) + [IntcUnregister(old(inner), m.IsMasked())]
      ensures status == SOLID_ERR_OK ==> r == Ret(true) && inner == old(inner).(param := null)
      ensures status != SOLID_ERR_OK ==> r.Panic? && inner == old(inner)
    {
      m.Record(IntcUnregister(inner, m.IsMasked()));
      if status != SOLID_ERR_OK {
        r := Panic("SOLID_INTC_UnRegister failed");
      } else {
        inner := inner.(param := null);
        r := Ret(true);
      }
    }

    /** The destructor: `unregister` under `abort_on_unwind`. */
    method Drop(m: Machine, lt: LineTable, status: i32) returns (d: Outcome<Unit>)
      requires m.Valid() && lt.Valid() && lt.cfg == m.cfg && lt.Idle()
      modifies this`inner, m`daif, m`log, lt.words
      ensures d == Ret(Unit) || d == Abort
      ensures d == Abort <==>
        old(IsRegistered()) && !(LineFor(m.cfg, old(GetNumber()), m.cpuId) == Some(line) && status == SOLID_ERR_OK)
      ensures d == Ret(Unit) ==> !IsRegistered()
      ensures !old(IsRegistered()) ==> m.log == old(m.log)
    {
      var u := Unregister(m, lt, status);
      d := if u.Ret? then Ret(Unit) else Abort;
    }
  }
}
