/**
 * The SOLID timer wrapper: schedules, the `Timer` start/stop state machine,
 * and the part of the handler trampoline that runs after the callback.
 */
module Timer {
  import opened Wrappers
  import opened Abi
  import opened Smp

  /** When the handler is called. */
  datatype Schedule = OneShot(usecs: u32) | Interval(usecs: u32) | GlobalTick(tick: u64)

  /** `Schedule::update_sys`: store the schedule in `ty`, `time` and `globalTick`. */
  function UpdateSys(cfg: Config, s: Schedule, d: TimerDesc): (r: TimerDesc)
    requires cfg.Valid()
    ensures r.func == d.func && r.param == d.param
    ensures !s.GlobalTick? ==> r.globalTick == d.globalTick
    ensures s.GlobalTick? ==> r.time == d.time
    ensures ScheduleOf(cfg, r) == Some(s)
  {
    match s
    case OneShot(x) => d.(ty := cfg.timerTypeOneShot, time := x)
    case Interval(x) => d.(ty := cfg.timerTypeInterval, time := x)
    case GlobalTick(x) => d.(ty := cfg.timerTypeGlobalTick, globalTick := x)
  }

  /** How the OS reads a descriptor back as a schedule; `None` for an unknown type. */
  function ScheduleOf(cfg: Config, d: TimerDesc): Option<Schedule> {
    if d.ty == cfg.timerTypeOneShot then Some(OneShot(d.time))
    else if d.ty == cfg.timerTypeInterval then Some(Interval(d.time))
    else if d.ty == cfg.timerTypeGlobalTick then Some(GlobalTick(d.globalTick))
    else None
  }

  /** Writing a schedule twice is the same as writing the second one. */
  lemma UpdateSysLastWins(cfg: Config, s1: Schedule, s2: Schedule, d: TimerDesc)
    requires cfg.Valid()
    ensures ScheduleOf(cfg, UpdateSys(cfg, s2, UpdateSys(cfg, s1, d))) == Some(s2)
    ensures UpdateSys(cfg, s2, UpdateSys(cfg, s1, d)).param == d.param
  {
  }

  /** `is_oneshot_ty`: every type but INTERVAL stops after one call. */
  function IsOneShotTy(cfg: Config, ty: u32): (r: bool)
    requires cfg.Valid()
    ensures r <==> ty != cfg.timerTypeInterval
  {
    ty != cfg.timerTypeInterval
  }

  /** A timer stops itself after firing exactly when its schedule is not `Interval`. */
  lemma OneShotBySchedule(cfg: Config, s: Schedule, d: TimerDesc)
    requires cfg.Valid()
    ensures IsOneShotTy(cfg, UpdateSys(cfg, s, d).ty) <==> !s.Interval?
  {
  }

  datatype TimerStartError = BadProcessor | BadParam

  datatype TimerStopError = BadProcessor | BadContext

  datatype RunningError = RunningError

  /** `owning_processor_id_p1` of a stopped timer. */
  const STOPPED: nat := 0

  /** How `start` maps the status of SOLID_TIMER_RegisterTimer. */
  function StartResult(status: i32): (r: Outcome<Result<bool, TimerStartError>>)
    ensures r == Ret(Ok(true)) <==> status == SOLID_ERR_OK
    ensures r == Ret(Err(TimerStartError.BadParam)) <==> status == SOLID_ERR_PAR
    ensures r.Panic? <==> status != SOLID_ERR_OK && status != SOLID_ERR_PAR
  {
    if status == SOLID_ERR_PAR then Ret(Err(TimerStartError.BadParam))
    else if status == SOLID_ERR_OK then Ret(Ok(true))
    else Panic("SOLID_TIMER_UnRegisterTimer failed")  // `start` names the wrong call in its message
  }

  /** How `stop` maps the status of SOLID_TIMER_UnRegisterTimer. */
  function StopResult(status: i32): (r: Outcome<Result<bool, TimerStopError>>)
    ensures r == Ret(Ok(true)) <==> status == SOLID_ERR_OK
    ensures r == Ret(Ok(false)) <==> status == SOLID_ERR_NOTFOUND
    ensures r.Panic? <==> status != SOLID_ERR_OK && status != SOLID_ERR_NOTFOUND
  {
    if status == SOLID_ERR_OK || status == SOLID_ERR_NOTFOUND then Ret(Ok(status == SOLID_ERR_OK))
    else Panic("SOLID_TIMER_UnRegisterTimer failed")
  }

  /** The safe wrapper of a SOLID-OS timer with a handler of type `T`. */
  class Timer<T> {
    const cfg: Config
    /** The SOLID_TIMER_HANDLER descriptor. */
    var inner: TimerDesc
    /** STOPPED, or the owning processor's ID plus one. */
    var owner: nat
    var handler: T

    ghost predicate Valid() reads this {
      cfg.Valid() && owner <= cfg.coreMax && (owner != STOPPED ==> inner.param == this)
    }

    /** `Timer::new`: a stopped timer whose descriptor holds the schedule. */
    constructor (cfg: Config, s: Schedule, h: T)
      requires cfg.Valid()
      ensures this.cfg == cfg && Valid() && !IsRunning() && handler == h
      ensures inner.param == null && inner.func == Trampoline && ScheduleOf(cfg, inner) == Some(s)
      ensures inner == UpdateSys(cfg, s, TimerDesc(0, 0, 0, Trampoline, null))
    {
      this.cfg := cfg;
      inner := UpdateSys(cfg, s, TimerDesc(0, 0, 0, Trampoline, null));
      owner := STOPPED;
      handler := h;
    }

    predicate IsRunning() reads this {
      owner != STOPPED
    }

    /**
     * `Timer::start`: in a critical section, check the processor, set
     * `param` and register the descriptor (the OS answers `status`).
     */
    method Start(m: Machine, status: i32) returns (r: Outcome<Result<bool, TimerStartError>>)
      requires m.Valid() && m.cfg == cfg && Valid()
      modifies this`inner, this`owner, m`daif, m`log
      ensures Valid() && m.daif == old(m.daif)
      ensures old(IsRunning()) ==>
        r == Ret(Ok(false)) && inner == old(inner) && owner == old(owner) && m.log == old(m.log)
      ensures !old(IsRunning()) && !cfg.timerEachCpu && m.cpuId != 0 ==>
        r == Ret(Err(TimerStartError.BadProcessor)) && inner == old(inner) && !IsRunning() && m.log == old(m.log)
      ensures !old(IsRunning()) && (cfg.timerEachCpu || m.cpuId == 0) ==>
        && inner == old(inner).(param := this)
        && m.log == old(m.log) + [TimerRegister(inner, true)]
        && r == StartResult(status)
        && owner == (if status == SOLID_ERR_OK then m.cpuId + 1 else STOPPED)
    {
      if IsRunning() {
        return Ret(Ok(false));
      }
      var saved := m.PushInt();
      var p1 := m.cpuId + 1;
      if !cfg.timerEachCpu && p1 != 1 {
        r := Ret(Err(TimerStartError.BadProcessor));
      } else {
        inner := inner.(param := this);
        m.Record(TimerRegister(inner, m.IsMasked()));
        r := StartResult(status);
        if status == SOLID_ERR_OK {
          owner := p1;
        }
      }
      m.PopIntRestoring(saved, old(m.daif));
    }

    /**
     * `Timer::stop`: refuse in an exception context or on another
     * processor; otherwise unregister (the OS answers `status`).
     */
    method Stop(m: Machine, status: i32) returns (r: Outcome<Result<bool, TimerStopError>>)
      requires m.Valid() && m.cfg == cfg && Valid()
      modifies this`owner, m`daif, m`log
      ensures Valid() && m.daif == old(m.daif)
      ensures !old(IsRunning()) ==> r == Ret(Ok(false)) && owner == old(owner) && m.log == old(m.log)
      ensures old(IsRunning()) && m.exceptionActive ==>
        r == Ret(Err(BadContext)) && owner == old(owner) && m.log == old(m.log)
      ensures old(IsRunning()) && !m.exceptionActive && old(owner) != m.cpuId + 1 ==>
        r == Ret(Err(TimerStopError.BadProcessor)) && owner == old(owner) && m.log == old(m.log)
      ensures old(IsRunning()) && !m.exceptionActive && old(owner) == m.cpuId + 1 ==>
        && m.log == old(m.log) + [TimerUnregister(inner, true)]
        && r == StopResult(status)
        && owner == (if r.Ret? then STOPPED else old(owner))
      ensures r.Ret? && r.value.Ok? ==> !IsRunning()
    {
      var p1 := owner;
      if p1 == STOPPED {
        return Ret(Ok(false));
      }
      if m.exceptionActive {
        return Ret(Err(BadContext));
      }
      var saved := m.PushInt();
      if p1 != m.cpuId + 1 {
        r := Ret(Err(TimerStopError.BadProcessor));
      } else {
        m.Record(TimerUnregister(inner, m.IsMasked()));
        r := StopResult(status);
        if r.Ret? {
          owner := STOPPED;
        }
      }
      m.PopIntRestoring(saved, old(m.daif));
    }

    /** The destructor: `stop` under `abort_on_unwind`, and any error is a panic. */
    method Drop(m: Machine, status: i32) returns (d: Outcome<Unit>)
      requires m.Valid() && m.cfg == cfg && Valid()
      modifies this`owner, m`daif, m`log
      ensures d == Ret(Unit) || d == Abort
      ensures d == Ret(Unit) ==> !IsRunning()
      ensures d == Abort <==>
        old(IsRunning()) &&
        (m.exceptionActive || old(owner) != m.cpuId + 1 || StopResult(status).Panic?)
    {
      var s := Stop(m, status);
      d := if s.Ret? && s.value.Ok? then Ret(Unit) else Abort;
    }

    /** `Timer::reschedule`: only a stopped timer takes a new schedule. */
    method Reschedule(s: Schedule) returns (r: Result<Unit, RunningError>)
      requires Valid()
      modifies this`inner
      ensures Valid()
      ensures old(IsRunning()) ==> r == Err(RunningError) && inner == old(inner)
      ensures !old(IsRunning()) ==> r == Ok(Unit) && inner == UpdateSys(cfg, s, old(inner))
    {
      if IsRunning() {
        r := Err(RunningError);
      } else {
        inner := UpdateSys(cfg, s, inner);
        r := Ok(Unit);
      }
    }

    /** `Timer::handler_pin`: the handler of a stopped timer. */
    function HandlerPin(): (r: Result<T, RunningError>) reads this
      ensures r.Ok? <==> !IsRunning()
      ensures r.Ok? ==> r.value == handler
    {
      if IsRunning() then Err(RunningError) else Ok(handler)
    }

    /** `Timer::handler_pin_mut`: change the handler of a stopped timer by `edit`. */
    method HandlerPinMut(edit: T -> T) returns (r: Result<Unit, RunningError>)
      modifies this`handler
      ensures old(IsRunning()) ==> r == Err(RunningError) && handler == old(handler)
      ensures !old(IsRunning()) ==> r == Ok(Unit) && handler == edit(old(handler))
    {
      if IsRunning() {
        r := Err(RunningError);
      } else {
        handler := edit(handler);
        r := Ok(Unit);
      }
    }

    /**
     * `Timer::handler_trampoline` with the closure wrapper: unmask
     * interrupts, run the callback `call`, mask them again (also while
     * unwinding), and mark a one-shot timer stopped. The OS calls it from
     * the timer interrupt with interrupts masked. A panicking callback
     * aborts.
     */
    method HandlerTrampoline(m: Machine, call: T -> Run<T>) returns (o: Outcome<Unit>)
      requires m.Valid() && m.cfg == cfg && Valid() && IsRunning() && m.exceptionActive && m.IsMasked()
      modifies this`handler, this`owner, m`daif, m`log
      ensures Valid() && m.daif == old(m.daif)
      ensures m.log == old(m.log) + [TimerCallback(false)]
      ensures o == Abort <==> call(old(handler)).Panics?
      ensures o == Ret(Unit) ==>
        && handler == call(old(handler)).value
        && owner == if IsOneShotTy(cfg, inner.ty) then STOPPED else old(owner)
    {
      m.EnaInt();
      m.Record(TimerCallback(m.IsMasked()));
      var run := call(handler);
      m.DisInt();
      if run.Panics? {
        return Abort;
      }
      handler := run.value;
      if IsOneShotTy(cfg, inner.ty) {
        owner := STOPPED;
      }
      o := Ret(Unit);
    }
  }
}
